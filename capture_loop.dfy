/**
 * The capture worker (`take_screenshots`): every pass takes a screenshot,
 * skips the pass while the player is typing in chat, otherwise reads the
 * match clock (toggling the map overlay on with `m` when the clock is not
 * visible), saves the map crop as `map_<n>_<timer>.png`, bumps the
 * screenshot counter and toggles the overlay back off.
 *
 * Screen captures, key presses and file writes are recorded, in order, as
 * effects; what OCR reads and whether a save raises are inputs.
 */
module CaptureLoop {
  import opened Wrappers
  import opened Text
  import opened Ocr
  import opened TimerParser
  import opened ChatDetector
  import opened Regions
  import opened FrameNames

  /** One observable action of the worker. */
  datatype Effect =
    | Screenshot                 // `pyautogui.screenshot()`
    | Press(key: char)           // `keyboard.press`
    | Release(key: char)         // `keyboard.release`
    | SaveDebug(name: string)    // a crop written to the debug folder
    | SaveMap(name: string)      // the map crop written to the session folder
    | SaveMapFailed(name: string) // the map save raised; the error was logged
  {
    predicate IsKey() {
      Press? || Release?
    }

    predicate IsMapAttempt() {
      SaveMap? || SaveMapFailed?
    }
  }

  /** What the outside world answers during one pass. */
  datatype Observation = Observation(
    chatOcr: OcrOutput,        // OCR of the chat region of the first screenshot
    timerOcr: OcrOutput,       // OCR of the timer region of the first screenshot
    retryTimerOcr: OcrOutput,  // OCR of the timer region of the screenshot taken with the map on
    mapSaveSucceeds: bool)     // whether saving the map crop completes without raising

  /** One `m` press and release: toggles the map overlay. */
  const Toggle: seq<Effect> := [Press('m'), Release('m')]

  /** The key presses and releases among `e`, in order. */
  function Keys(e: seq<Effect>): seq<Effect>
  {
    if e == [] then []
    else Keys(e[..|e| - 1]) + (if e[|e| - 1].IsKey() then [e[|e| - 1]] else [])
  }

  /** Names of the files written (debug crops and saved map frames), in order. */
  function Writes(e: seq<Effect>): seq<string> {
    if e == [] then []
    else
      var last := e[|e| - 1];
      Writes(e[..|e| - 1]) + (if last.SaveDebug? || last.SaveMap? then [last.name] else [])
  }

  /** Names of the map frames saved, in order. */
  function SavedMaps(e: seq<Effect>): seq<string> {
    if e == [] then []
    else SavedMaps(e[..|e| - 1]) + (if e[|e| - 1].SaveMap? then [e[|e| - 1].name] else [])
  }

  lemma {:induction false} KeysAppend(a: seq<Effect>, b: seq<Effect>)
    ensures Keys(a + b) == Keys(a) + Keys(b)
    decreases |b|
  {
    if b == [] {
      assert a + b == a;
    } else {
      var c := a + b;
      assert c[..|c| - 1] == a + b[..|b| - 1];
      assert c[|c| - 1] == b[|b| - 1];
      KeysAppend(a, b[..|b| - 1]);
    }
  }

  lemma {:induction false} WritesAppend(a: seq<Effect>, b: seq<Effect>)
    ensures Writes(a + b) == Writes(a) + Writes(b)
    decreases |b|
  {
    if b == [] {
      assert a + b == a;
    } else {
      var c := a + b;
      assert c[..|c| - 1] == a + b[..|b| - 1];
      assert c[|c| - 1] == b[|b| - 1];
      WritesAppend(a, b[..|b| - 1]);
    }
  }

  lemma {:induction false} SavedMapsAppend(a: seq<Effect>, b: seq<Effect>)
    ensures SavedMaps(a + b) == SavedMaps(a) + SavedMaps(b)
    decreases |b|
  {
    if b == [] {
      assert a + b == a;
    } else {
      var c := a + b;
      assert c[..|c| - 1] == a + b[..|b| - 1];
      assert c[|c| - 1] == b[|b| - 1];
      SavedMapsAppend(a, b[..|b| - 1]);
    }
  }

  lemma {:induction false} KeysNone(e: seq<Effect>)
    requires forall i :: 0 <= i < |e| ==> !e[i].IsKey()
    ensures Keys(e) == []
    decreases |e|
  {
    if e != [] {
      KeysNone(e[..|e| - 1]);
    }
  }

  lemma {:induction false} KeysAll(e: seq<Effect>)
    requires forall i :: 0 <= i < |e| ==> e[i].IsKey()
    ensures Keys(e) == e
    decreases |e|
  {
    if e != [] {
      KeysAll(e[..|e| - 1]);
      assert e == e[..|e| - 1] + [e[|e| - 1]];
    }
  }

  lemma {:induction false} WritesNone(e: seq<Effect>)
    requires forall i :: 0 <= i < |e| ==> !e[i].SaveDebug? && !e[i].SaveMap?
    ensures Writes(e) == [] && SavedMaps(e) == []
    decreases |e|
  {
    if e != [] {
      WritesNone(e[..|e| - 1]);
    }
  }

  lemma {:induction false} SavedMapsNone(e: seq<Effect>)
    requires forall i :: 0 <= i < |e| ==> !e[i].SaveMap?
    ensures SavedMaps(e) == []
    decreases |e|
  {
    if e != [] {
      SavedMapsNone(e[..|e| - 1]);
    }
  }

  lemma WritesOne(x: Effect)
    ensures Writes([x]) == if x.SaveDebug? || x.SaveMap? then [x.name] else []
  {
    assert [x][..0] == [];
  }

  lemma SavedMapsOne(x: Effect)
    ensures SavedMaps([x]) == if x.SaveMap? then [x.name] else []
  {
    assert [x][..0] == [];
  }

  /** Whether the map crop has a positive width and height (`map_cropped.size`). */
  predicate MapCropNonEmpty(width: nat, height: nat) {
    MapArea(width, height).Width() > 0 && MapArea(width, height).Height() > 0
  }

  /**
   * The timer text that goes into the frame name: the first read, else the
   * read taken with the map toggled on, else `unknown_time`.
   */
  function ElapsedTime(obs: Observation): (t: string)
    ensures t == UnknownTime <==> ExtractTime(obs.timerOcr).None? && ExtractTime(obs.retryTimerOcr).None?
    ensures t != UnknownTime ==> IsFileTimer(t)
    ensures ExtractTime(obs.timerOcr).Some? ==> t == ExtractTime(obs.timerOcr).value
    ensures ExtractTime(obs.timerOcr).None? && ExtractTime(obs.retryTimerOcr).Some? ==>
              t == ExtractTime(obs.retryTimerOcr).value
  {
    match ExtractTime(obs.timerOcr)
    case Some(t) => t
    case None => ExtractTime(obs.retryTimerOcr).GetOr(UnknownTime)
  }

  /** The outcome of one pass: the effects in order, the new counter and the map frame saved, if any. */
  datatype Step = Step(effects: seq<Effect>, count: nat, saved: Option<string>)

  /** The toggle on and the screenshot retaken with the map showing, when the first timer read failed. */
  function ToggleOn(toggled: bool): seq<Effect> {
    if toggled then Toggle + [Screenshot] else []
  }

  /** The map save attempt, skipped when the crop is empty. */
  function MapAttempt(name: string, cropNonEmpty: bool, saveSucceeds: bool): seq<Effect> {
    if !cropNonEmpty then []
    else if saveSucceeds then [SaveMap(name)]
    else [SaveMapFailed(name)]
  }

  /** The toggle off, when the pass toggled the map on. */
  function ToggleOff(toggled: bool): seq<Effect> {
    if toggled then Toggle else []
  }

  /** One pass of the `while self.is_running` loop, started with the counter at `count`. */
  function Iteration(count: nat, width: nat, height: nat, obs: Observation): Step {
    if ExtractChatStatus(obs.chatOcr) then Step([Screenshot, SaveDebug(ChatRegionName(count + 1))], count, None)
    else CapturePass(count, width, height, obs)
  }

  /**
   * A pass outside chat: the screenshot and the two debug crops, the
   * toggle on when the first timer read failed, the map save attempt, the
   * counter bump and the toggle off.
   */
  function CapturePass(count: nat, width: nat, height: nat, obs: Observation): Step {
    var toggled := ExtractTime(obs.timerOcr).None?;
    var name := MapFileName(count + 1, ElapsedTime(obs));
    var cropNonEmpty := MapCropNonEmpty(width, height);
    Step(Front(count) + ToggleOn(toggled) + MapAttempt(name, cropNonEmpty, obs.mapSaveSucceeds) + ToggleOff(toggled),
         count + 1,
         if cropNonEmpty && obs.mapSaveSucceeds then Some(name) else None)
  }

  /** The option as a list of zero or one elements. */
  function OptionToSeq<T>(o: Option<T>): seq<T> {
    if o.Some? then [o.value] else []
  }

  /** The effects every pass outside chat starts with: the screenshot and the two debug crops. */
  function Front(count: nat): seq<Effect> {
    [Screenshot, SaveDebug(ChatRegionName(count + 1)), SaveDebug(TimeRegionName(count + 1))]
  }

  lemma FrontFilters(count: nat)
    ensures Keys(Front(count)) == [] && SavedMaps(Front(count)) == []
    ensures forall i :: 0 <= i < |Front(count)| ==> !Front(count)[i].IsMapAttempt()
    ensures Writes(Front(count)) == [ChatRegionName(count + 1), TimeRegionName(count + 1)]
  {
    DebugFilters(ChatRegionName(count + 1), TimeRegionName(count + 1));
  }

  /** The screenshot and two debug crops: no key, no map, the two crop names written. */
  lemma DebugFilters(a: string, b: string)
    ensures var f := [Screenshot, SaveDebug(a), SaveDebug(b)];
            Keys(f) == [] && SavedMaps(f) == [] && Writes(f) == [a, b] &&
            forall i :: 0 <= i < |f| ==> !f[i].IsMapAttempt()
  {
    KeysNone([Screenshot, SaveDebug(a), SaveDebug(b)]);
    DebugWrites(a, b);
    DebugSaved(a, b);
  }

  lemma DebugWrites(a: string, b: string)
    ensures Writes([Screenshot, SaveDebug(a), SaveDebug(b)]) == [a, b]
  {
    var x, y, z := Screenshot, SaveDebug(a), SaveDebug(b);
    var xy := [x] + [y];
    assert [x, y, z] == xy + [z];
    WritesOne(x); WritesOne(y); WritesOne(z);
    WritesAppend([x], [y]); WritesAppend(xy, [z]);
  }

  lemma DebugSaved(a: string, b: string)
    ensures SavedMaps([Screenshot, SaveDebug(a), SaveDebug(b)]) == []
  {
    var x, y, z := Screenshot, SaveDebug(a), SaveDebug(b);
    var xy := [x] + [y];
    assert [x, y, z] == xy + [z];
    SavedMapsOne(x); SavedMapsOne(y); SavedMapsOne(z);
    SavedMapsAppend([x], [y]); SavedMapsAppend(xy, [z]);
  }

  lemma ToggleFilters(toggled: bool)
    ensures Keys(ToggleOn(toggled)) == Keys(ToggleOff(toggled)) == (if toggled then Toggle else [])
    ensures Writes(ToggleOn(toggled)) == Writes(ToggleOff(toggled)) == []
    ensures SavedMaps(ToggleOn(toggled)) == SavedMaps(ToggleOff(toggled)) == []
    ensures forall i :: 0 <= i < |ToggleOn(toggled)| ==> !ToggleOn(toggled)[i].IsMapAttempt()
    ensures forall i :: 0 <= i < |ToggleOff(toggled)| ==> !ToggleOff(toggled)[i].IsMapAttempt()
  {
    KeysAll(Toggle);
    KeysAppend(Toggle, [Screenshot]);
    KeysNone([Screenshot]);
    WritesNone(ToggleOn(toggled));
    WritesNone(ToggleOff(toggled));
  }

  lemma AttemptFilters(name: string, cropNonEmpty: bool, saveSucceeds: bool)
    ensures Keys(MapAttempt(name, cropNonEmpty, saveSucceeds)) == []
    ensures Writes(MapAttempt(name, cropNonEmpty, saveSucceeds)) == SavedMaps(MapAttempt(name, cropNonEmpty, saveSucceeds))
            == if cropNonEmpty && saveSucceeds then [name] else []
  {
    KeysNone(MapAttempt(name, cropNonEmpty, saveSucceeds));
    WritesOne(SaveMap(name)); WritesOne(SaveMapFailed(name));
    SavedMapsOne(SaveMap(name)); SavedMapsOne(SaveMapFailed(name));
  }

  /** In a pass outside chat the only save attempt is the map piece, after the front and the toggle on. */
  lemma AttemptPosition(f: seq<Effect>, on: seq<Effect>, at: seq<Effect>, off: seq<Effect>)
    requires forall i :: 0 <= i < |f| ==> !f[i].IsMapAttempt()
    requires forall i :: 0 <= i < |on| ==> !on[i].IsMapAttempt()
    requires forall i :: 0 <= i < |off| ==> !off[i].IsMapAttempt()
    requires |at| <= 1
    ensures forall i :: 0 <= i < |f + on + at + off| && (f + on + at + off)[i].IsMapAttempt() ==> i == |f + on|
  {
  }

  /** The keys of a pass outside chat, from the keys of its pieces. */
  lemma PassKeys(f: seq<Effect>, on: seq<Effect>, at: seq<Effect>, off: seq<Effect>, toggled: bool)
    requires Keys(f) == [] && Keys(at) == []
    requires Keys(on) == Keys(off) == (if toggled then Toggle else [])
    ensures Keys(f + on + at + off) == if toggled then Toggle + Toggle else []
    ensures Keys(f + on) == if toggled then Toggle else []
  {
    var t := if toggled then Toggle else [];
    assert Keys(f + on) == t by {
      KeysAppend(f, on);
      AfterNothing(t);
    }
    assert Keys(f + on + at) == t by {
      KeysAppend(f + on, at);
      AppendNothing(t);
    }
    KeysAppend(f + on + at, off);
    if !toggled {
      AppendNothing<string>([]);
    }
  }

  /** The files written by a pass outside chat, from those of its pieces. */
  lemma PassWrites(f: seq<Effect>, on: seq<Effect>, at: seq<Effect>, off: seq<Effect>, front: seq<string>, saved: seq<string>)
    requires Writes(f) == front && Writes(on) == Writes(off) == [] && Writes(at) == saved
    requires SavedMaps(f) == SavedMaps(on) == SavedMaps(off) == [] && SavedMaps(at) == saved
    ensures Writes(f + on + at + off) == front + saved
    ensures SavedMaps(f + on + at + off) == saved
  {
    assert Writes(f + on) == front by {
      WritesAppend(f, on);
      AppendNothing(front);
    }
    assert Writes(f + on + at) == front + saved by {
      WritesAppend(f + on, at);
    }
    assert Writes(f + on + at + off) == front + saved by {
      WritesAppend(f + on + at, off);
      AppendNothing(front + saved);
    }
    assert SavedMaps(f + on) == [] by {
      SavedMapsAppend(f, on);
      AppendNothing<string>([]);
    }
    assert SavedMaps(f + on + at) == saved by {
      SavedMapsAppend(f + on, at);
      AfterNothing(saved);
    }
    assert SavedMaps(f + on + at + off) == saved by {
      SavedMapsAppend(f + on + at, off);
      AppendNothing(saved);
    }
  }

  /** The keys pressed before the save attempt of a pass outside chat are exactly the toggle on. */
  lemma PassOrder(f: seq<Effect>, on: seq<Effect>, at: seq<Effect>, off: seq<Effect>, toggled: bool)
    requires Keys(f) == [] && Keys(at) == []
    requires Keys(on) == Keys(off) == (if toggled then Toggle else [])
    requires forall i :: 0 <= i < |f| ==> !f[i].IsMapAttempt()
    requires forall i :: 0 <= i < |on| ==> !on[i].IsMapAttempt()
    requires forall i :: 0 <= i < |off| ==> !off[i].IsMapAttempt()
    requires |at| <= 1
    ensures forall i :: 0 <= i < |f + on + at + off| && (f + on + at + off)[i].IsMapAttempt() ==>
              Keys((f + on + at + off)[..i]) == if toggled then Toggle else []
  {
    var e := f + on + at + off;
    AttemptPosition(f, on, at, off);
    PassKeys(f, on, at, off, toggled);
    forall i | 0 <= i < |e| && e[i].IsMapAttempt()
      ensures Keys(e[..i]) == if toggled then Toggle else []
    {
      PrefixOfPieces(f + on, at, off);
    }
  }

  /** Cutting a sequence at the end of its first piece gives that piece back. */
  lemma PrefixOfPieces(p: seq<Effect>, at: seq<Effect>, off: seq<Effect>)
    ensures (p + at + off)[..|p|] == p
  {
  }

  /** A sequence ends with what was appended last. */
  lemma EndsWithLast(p: seq<Effect>, off: seq<Effect>)
    ensures |p + off| >= |off| && (p + off)[|p + off| - |off|..] == off
  {
  }

  /**
   * While the player is typing in chat, a pass presses no key, saves no
   * map, leaves the counter alone and writes only the chat debug crop.
   */
  lemma ChatSkip(count: nat, width: nat, height: nat, obs: Observation)
    requires ExtractChatStatus(obs.chatOcr)
    ensures Keys(Iteration(count, width, height, obs).effects) == []
    ensures Writes(Iteration(count, width, height, obs).effects) == [ChatRegionName(count + 1)]
    ensures SavedMaps(Iteration(count, width, height, obs).effects) == []
    ensures Iteration(count, width, height, obs).count == count
    ensures Iteration(count, width, height, obs).saved == None
  {
    ChatFilters(ChatRegionName(count + 1));
  }

  /** The screenshot and the chat debug crop: no key, no map, the crop name written. */
  lemma ChatFilters(a: string)
    ensures var f := [Screenshot, SaveDebug(a)];
            Keys(f) == [] && SavedMaps(f) == [] && Writes(f) == [a]
  {
    var x, y := Screenshot, SaveDebug(a);
    assert [x, y] == [x] + [y];
    KeysNone([x, y]);
    WritesOne(x); WritesOne(y);
    WritesAppend([x], [y]);
    SavedMapsOne(x); SavedMapsOne(y);
    SavedMapsAppend([x], [y]);
  }

  /**
   * Outside chat, the keys pressed depend only on the first timer read:
   * none when it succeeds, otherwise `m` on and `m` off, so the overlay is
   * left as it was found.
   */
  lemma KeystrokesPaired(count: nat, width: nat, height: nat, obs: Observation)
    requires !ExtractChatStatus(obs.chatOcr)
    ensures Keys(Iteration(count, width, height, obs).effects) ==
            if ExtractTime(obs.timerOcr).Some? then [] else Toggle + Toggle
  {
    var toggled, name := ExtractTime(obs.timerOcr).None?, MapFileName(count + 1, ElapsedTime(obs));
    var f, on, off := Front(count), ToggleOn(toggled), ToggleOff(toggled);
    var at := MapAttempt(name, MapCropNonEmpty(width, height), obs.mapSaveSucceeds);
    FrontFilters(count);
    ToggleFilters(toggled);
    AttemptFilters(name, MapCropNonEmpty(width, height), obs.mapSaveSucceeds);
    PassKeys(f, on, at, off, toggled);
  }

  /**
   * The map frame is saved (or its save fails) while the overlay is on:
   * before the attempt the keys pressed are exactly the toggle on (none when
   * the map was already showing the clock), and when the map was toggled on,
   * the toggle off comes last, after the attempt, whether or not it raised.
   */
  lemma MapSavedWhileOverlayOn(count: nat, width: nat, height: nat, obs: Observation)
    requires !ExtractChatStatus(obs.chatOcr)
    ensures var e := Iteration(count, width, height, obs).effects;
            forall i :: 0 <= i < |e| && e[i].IsMapAttempt() ==>
              Keys(e[..i]) == (if ExtractTime(obs.timerOcr).Some? then [] else Toggle)
    ensures var e := Iteration(count, width, height, obs).effects;
            ExtractTime(obs.timerOcr).None? ==> |e| >= 2 && e[|e| - 2..] == Toggle
  {
    var toggled, name := ExtractTime(obs.timerOcr).None?, MapFileName(count + 1, ElapsedTime(obs));
    var f, on, off := Front(count), ToggleOn(toggled), ToggleOff(toggled);
    var at := MapAttempt(name, MapCropNonEmpty(width, height), obs.mapSaveSucceeds);
    assert Iteration(count, width, height, obs).effects == f + on + at + off;
    FrontFilters(count);
    ToggleFilters(toggled);
    AttemptFilters(name, MapCropNonEmpty(width, height), obs.mapSaveSucceeds);
    PassOrder(f, on, at, off, toggled);
    EndsWithLast(f + on + at, off);
  }

  /**
   * Outside chat, the counter goes up by one whatever the screen size and
   * whether or not the save raised; the frame saved (only when the crop is
   * non-empty and the save completes) is `map_<count+1>_<timer>.png`, and
   * the files written are the two debug crops and that frame.
   */
  lemma PassOutsideChat(count: nat, width: nat, height: nat, obs: Observation)
    requires !ExtractChatStatus(obs.chatOcr)
    ensures Iteration(count, width, height, obs).count == count + 1
    ensures Iteration(count, width, height, obs).saved ==
            if MapCropNonEmpty(width, height) && obs.mapSaveSucceeds
            then Some(MapFileName(count + 1, ElapsedTime(obs)))
            else None
    ensures Writes(Iteration(count, width, height, obs).effects) ==
            [ChatRegionName(count + 1), TimeRegionName(count + 1)] + OptionToSeq(Iteration(count, width, height, obs).saved)
    ensures SavedMaps(Iteration(count, width, height, obs).effects) == OptionToSeq(Iteration(count, width, height, obs).saved)
  {
    var toggled, name := ExtractTime(obs.timerOcr).None?, MapFileName(count + 1, ElapsedTime(obs));
    var f, on, off := Front(count), ToggleOn(toggled), ToggleOff(toggled);
    var at := MapAttempt(name, MapCropNonEmpty(width, height), obs.mapSaveSucceeds);
    FrontFilters(count);
    ToggleFilters(toggled);
    AttemptFilters(name, MapCropNonEmpty(width, height), obs.mapSaveSucceeds);
    PassWrites(f, on, at, off, [ChatRegionName(count + 1), TimeRegionName(count + 1)], OptionToSeq(CapturePass(count, width, height, obs).saved));
  }

  // ------------------------------------------------------------ sessions

  /** What a run of passes leaves behind: every effect in order and the final counter. */
  datatype Session = Session(effects: seq<Effect>, count: nat)

  /** The passes of `take_screenshots`, one per observation, started with the counter at `count`. */
  function Run(count: nat, width: nat, height: nat, obs: seq<Observation>): Session
    decreases |obs|
  {
    if obs == [] then Session([], count)
    else
      var prev := Run(count, width, height, obs[..|obs| - 1]);
      var step := Iteration(prev.count, width, height, obs[|obs| - 1]);
      Session(prev.effects + step.effects, step.count)
  }

  /** Running one more pass extends the run by that pass. */
  lemma RunStep(count: nat, width: nat, height: nat, obs: seq<Observation>, i: nat)
    requires i < |obs|
    ensures var prev := Run(count, width, height, obs[..i]);
            var step := Iteration(prev.count, width, height, obs[i]);
            Run(count, width, height, obs[..i + 1]) == Session(prev.effects + step.effects, step.count)
  {
    assert obs[..i + 1][..i] == obs[..i];
  }

  /** How many of the passes were not skipped for chat. */
  function CapturePasses(obs: seq<Observation>): nat {
    if obs == [] then 0
    else CapturePasses(obs[..|obs| - 1]) + (if ExtractChatStatus(obs[|obs| - 1].chatOcr) then 0 else 1)
  }

  /** The counter ends up advanced by one for every pass outside chat, and by nothing else. */
  lemma {:induction false} RunCount(count: nat, width: nat, height: nat, obs: seq<Observation>)
    ensures Run(count, width, height, obs).count == count + CapturePasses(obs)
    decreases |obs|
  {
    if obs != [] {
      var prev := Run(count, width, height, obs[..|obs| - 1]);
      RunCount(count, width, height, obs[..|obs| - 1]);
      if ExtractChatStatus(obs[|obs| - 1].chatOcr) {
        ChatSkip(prev.count, width, height, obs[|obs| - 1]);
      } else {
        PassOutsideChat(prev.count, width, height, obs[|obs| - 1]);
      }
    }
  }

  /** Keys that come as whole on/off pairs of `m` toggles: the overlay ends as it started. */
  predicate Balanced(keys: seq<Effect>) {
    |keys| % 4 == 0 && forall i :: 0 <= i < |keys| ==> keys[i] == if i % 2 == 0 then Press('m') else Release('m')
  }

  lemma BalancedAppend(x: seq<Effect>, y: seq<Effect>)
    requires Balanced(x) && (y == [] || y == Toggle + Toggle)
    ensures Balanced(x + y)
  {
    if y != [] {
      var q := |x| / 4;
      assert |x| == 4 * q;
      forall i | 0 <= i < |x + y|
        ensures (x + y)[i] == if i % 2 == 0 then Press('m') else Release('m')
      {
        if i < |x| {
          assert (x + y)[i] == x[i];
        } else {
          TogglePairAt(i - |x|);
          ParityShift(q, i - |x|);
        }
      }
    }
  }

  /** Two toggles alternate press and release. */
  lemma TogglePairAt(j: int)
    requires 0 <= j < 4
    ensures (Toggle + Toggle)[j] == if j % 2 == 0 then Press('m') else Release('m')
  {
  }

  /** Shifting by a multiple of four keeps parity. */
  lemma ParityShift(q: nat, j: nat)
    ensures (4 * q + j) % 2 == j % 2
  {
    if q > 0 {
      ParityShift(q - 1, j);
      assert 4 * q + j == (4 * (q - 1) + j) + 4;
    }
  }

  /**
   * However many passes run, and whatever OCR reads, the keys pressed are
   * whole toggle pairs: every time the map overlay was turned on it was
   * turned off again.
   */
  lemma {:induction false} RunKeysBalanced(count: nat, width: nat, height: nat, obs: seq<Observation>)
    ensures Balanced(Keys(Run(count, width, height, obs).effects))
    decreases |obs|
  {
    if obs != [] {
      var prev := Run(count, width, height, obs[..|obs| - 1]);
      var o := obs[|obs| - 1];
      var step := Iteration(prev.count, width, height, o);
      RunKeysBalanced(count, width, height, obs[..|obs| - 1]);
      KeysAppend(prev.effects, step.effects);
      if ExtractChatStatus(o.chatOcr) {
        ChatSkip(prev.count, width, height, o);
      } else {
        KeystrokesPaired(prev.count, width, height, o);
      }
      BalancedAppend(Keys(prev.effects), Keys(step.effects));
    }
  }

  /**
   * The frame names carry screenshot numbers in `(lo, hi]`, strictly
   * increasing along the list.
   */
  predicate Numbered(names: seq<string>, lo: nat, hi: nat) {
    (forall i :: 0 <= i < |names| ==> FrameIndex(names[i]).Some? && lo < FrameIndex(names[i]).value <= hi) &&
    (forall i, j :: 0 <= i < j < |names| ==> FrameIndex(names[i]).value < FrameIndex(names[j]).value)
  }

  lemma NumberedAppend(x: seq<string>, y: seq<string>, lo: nat, mid: nat, hi: nat)
    requires Numbered(x, lo, mid) && Numbered(y, mid, hi) && lo <= mid <= hi
    ensures Numbered(x + y, lo, hi)
  {
    var names := x + y;
    forall i | 0 <= i < |names|
      ensures FrameIndex(names[i]).Some? && lo < FrameIndex(names[i]).value <= hi
    {
      if i < |x| {
        assert names[i] == x[i];
      } else {
        assert names[i] == y[i - |x|];
      }
    }
    forall i, j | 0 <= i < j < |names|
      ensures FrameIndex(names[i]).value < FrameIndex(names[j]).value
    {
      if j < |x| {
        assert names[i] == x[i] && names[j] == x[j];
      } else if i < |x| {
        assert names[i] == x[i] && names[j] == y[j - |x|];
      } else {
        assert names[i] == y[i - |x|] && names[j] == y[j - |x|];
      }
    }
  }

  /** A single pass saves at most the frame numbered with its new counter. */
  lemma IterationNumbered(count: nat, width: nat, height: nat, obs: Observation)
    ensures count <= Iteration(count, width, height, obs).count
    ensures Numbered(SavedMaps(Iteration(count, width, height, obs).effects), count, Iteration(count, width, height, obs).count)
  {
    if ExtractChatStatus(obs.chatOcr) {
      ChatSkip(count, width, height, obs);
      NumberedNone(count, count);
    } else {
      PassOutsideChat(count, width, height, obs);
      var name := MapFileName(count + 1, ElapsedTime(obs));
      FrameIndexOfMapFileName(count + 1, ElapsedTime(obs));
      NumberedNone(count, count + 1);
      NumberedOne(name, count, count + 1);
    }
  }

  lemma NumberedNone(lo: nat, hi: nat)
    ensures Numbered([], lo, hi)
  {
  }

  lemma NumberedOne(name: string, lo: nat, hi: nat)
    requires FrameIndex(name) == Some(hi) && lo < hi
    ensures Numbered([name], lo, hi)
  {
  }

  /**
   * The map frames a run saves carry the numbers `count + 1`,
   * `count + 2`, ... in strictly increasing order, within the counter's
   * range; so no saved frame overwrites another.
   */
  lemma {:induction false} RunFramesNumbered(count: nat, width: nat, height: nat, obs: seq<Observation>)
    ensures count <= Run(count, width, height, obs).count
    ensures Numbered(SavedMaps(Run(count, width, height, obs).effects), count, Run(count, width, height, obs).count)
    decreases |obs|
  {
    if obs != [] {
      var prev := Run(count, width, height, obs[..|obs| - 1]);
      var step := Iteration(prev.count, width, height, obs[|obs| - 1]);
      RunFramesNumbered(count, width, height, obs[..|obs| - 1]);
      IterationNumbered(prev.count, width, height, obs[|obs| - 1]);
      SavedMapsAppend(prev.effects, step.effects);
      NumberedAppend(SavedMaps(prev.effects), SavedMaps(step.effects), count, prev.count, step.count);
    }
  }

  /** Distinct positions in the list of saved frames hold distinct file names. */
  lemma RunFramesDistinct(count: nat, width: nat, height: nat, obs: seq<Observation>)
    ensures var names := SavedMaps(Run(count, width, height, obs).effects);
            forall i, j :: 0 <= i < j < |names| ==> names[i] != names[j]
  {
    RunFramesNumbered(count, width, height, obs);
  }

  /** A pass in chat, as `Iteration` defines it. */
  lemma ChatIteration(count: nat, width: nat, height: nat, obs: Observation)
    requires ExtractChatStatus(obs.chatOcr)
    ensures Iteration(count, width, height, obs) == Step([Screenshot, SaveDebug(ChatRegionName(count + 1))], count, None)
  {
  }

  /** A pass outside chat, as `Iteration` defines it, from its pieces. */
  lemma CaptureIteration(count: nat, width: nat, height: nat, obs: Observation, toggled: bool, timer: string, n: nat, name: string,
                          on: seq<Effect>, at: seq<Effect>, off: seq<Effect>)
    requires !ExtractChatStatus(obs.chatOcr)
    requires toggled == ExtractTime(obs.timerOcr).None? && timer == ElapsedTime(obs) && n == count + 1 && name == MapFileName(n, timer)
    requires on == ToggleOn(toggled) && off == ToggleOff(toggled)
    requires at == MapAttempt(name, MapCropNonEmpty(width, height), obs.mapSaveSucceeds)
    ensures Iteration(count, width, height, obs).effects == Front(count) + on + at + off
    ensures Iteration(count, width, height, obs).count == count + 1
    ensures Iteration(count, width, height, obs).saved ==
            if MapCropNonEmpty(width, height) && obs.mapSaveSucceeds then Some(name) else None
  {
  }

  lemma SnocTwo(e: seq<Effect>, x: Effect, y: Effect)
    ensures e + [x] + [y] == e + [x, y]
  {
  }

  lemma SnocThree(e: seq<Effect>, x: Effect, y: Effect, z: Effect)
    ensures e + [x] + [y] + [z] == e + [x, y, z]
  {
  }

  lemma SnocToggleOn(e: seq<Effect>)
    ensures e + [Press('m'), Release('m')] + [Screenshot] == e + ToggleOn(true)
  {
  }

  /** Appending nothing to a list leaves it as it was. */
  lemma AppendNothing<T>(e: seq<T>)
    ensures e + [] == e
  {
  }

  /** Appending a list to nothing gives that list. */
  lemma AfterNothing<T>(e: seq<T>)
    ensures [] + e == e
  {
  }

  lemma AppendAssoc(a: seq<Effect>, b: seq<Effect>, c: seq<Effect>)
    ensures a + b + c == a + (b + c)
  {
  }

  /** Appending the pieces of a pass one by one appends the whole pass. */
  lemma AppendPieces(e: seq<Effect>, f: seq<Effect>, on: seq<Effect>, at: seq<Effect>, off: seq<Effect>)
    ensures e + f + on + at + off == e + (f + on + at + off)
  {
  }

  // -------------------------------------------------------------- worker

  /** The capture worker's state: the screen size it was started on, the counter and what it has done so far. */
  class CaptureWorker {
    const screenWidth: nat
    const screenHeight: nat
    var screenshotCount: nat
    var effects: seq<Effect>

    /** A session starts with the counter at zero. */
    constructor (screenWidth: nat, screenHeight: nat)
      ensures this.screenWidth == screenWidth && this.screenHeight == screenHeight
      ensures screenshotCount == 0 && effects == []
    {
      this.screenWidth := screenWidth;
      this.screenHeight := screenHeight;
      screenshotCount := 0;
      effects := [];
    }

    /** One pass of the capture loop, step by step. */
    method Pass(obs: Observation) returns (saved: Option<string>)
      modifies this
      ensures var step := Iteration(old(screenshotCount), screenWidth, screenHeight, obs);
              effects == old(effects) + step.effects && screenshotCount == step.count && saved == step.saved
    {
      ghost var e0, count := effects, screenshotCount;
      var n := screenshotCount + 1;
      effects := effects + [Screenshot];
      var chatActive := ExtractChatStatus(obs.chatOcr);
      effects := effects + [SaveDebug(ChatRegionName(n))];
      if chatActive {
        SnocTwo(e0, Screenshot, SaveDebug(ChatRegionName(n)));
        ChatIteration(count, screenWidth, screenHeight, obs);
        return None;
      }
      var elapsedTime := ExtractTime(obs.timerOcr);
      effects := effects + [SaveDebug(TimeRegionName(n))];
      SnocThree(e0, Screenshot, SaveDebug(ChatRegionName(n)), SaveDebug(TimeRegionName(n)));
      ghost var e1 := effects;
      var timer, mapToggled := ResolveTimer(elapsedTime, obs);
      ghost var e2 := effects;
      var name := MapFileName(n, timer);
      saved := SaveMapFrame(name, obs.mapSaveSucceeds);
      ghost var e3 := effects;
      screenshotCount := n;
      DeactivateMap(mapToggled);
      ghost var on, off := ToggleOn(mapToggled), ToggleOff(mapToggled);
      ghost var at := MapAttempt(name, MapCropNonEmpty(screenWidth, screenHeight), obs.mapSaveSucceeds);
      assert e2 == e1 + on && e3 == e2 + at && effects == e3 + off;
      AppendPieces(e0, Front(count), on, at, off);
      CaptureIteration(count, screenWidth, screenHeight, obs, mapToggled, timer, n, name, on, at, off);
    }

    /**
     * The timer fallback: keep the first read when it succeeded; otherwise
     * toggle the map on, retake the screenshot and read again, falling back
     * to `unknown_time`.
     */
    method ResolveTimer(firstRead: Option<string>, obs: Observation) returns (elapsedTime: string, mapToggled: bool)
      requires firstRead == ExtractTime(obs.timerOcr)
      modifies this
      ensures mapToggled == firstRead.None? && elapsedTime == ElapsedTime(obs)
      ensures effects == old(effects) + ToggleOn(mapToggled) && screenshotCount == old(screenshotCount)
    {
      var read := firstRead;
      mapToggled := false;
      if read.None? {
        effects := effects + [Press('m'), Release('m')];
        mapToggled := true;
        effects := effects + [Screenshot];
        SnocToggleOn(old(effects));
        read := ExtractTime(obs.retryTimerOcr);
        if read.None? {
          read := Some(UnknownTime);
        }
      } else {
        AppendNothing(effects);
      }
      elapsedTime := read.value;
    }

    /** The map save: skipped when the crop is empty; a save that raises is logged and leaves no frame. */
    method SaveMapFrame(name: string, saveSucceeds: bool) returns (saved: Option<string>)
      modifies this
      ensures effects == old(effects) + MapAttempt(name, MapCropNonEmpty(screenWidth, screenHeight), saveSucceeds)
      ensures saved == if MapCropNonEmpty(screenWidth, screenHeight) && saveSucceeds then Some(name) else None
      ensures screenshotCount == old(screenshotCount)
    {
      var mapArea := MapArea(screenWidth, screenHeight);
      saved := None;
      if mapArea.Width() > 0 && mapArea.Height() > 0 {
        if saveSucceeds {
          effects := effects + [SaveMap(name)];
          saved := Some(name);
        } else {
          effects := effects + [SaveMapFailed(name)];
        }
      } else {
        AppendNothing(effects);
      }
    }

    /** Press `m` again when this pass toggled the map on. */
    method DeactivateMap(mapToggled: bool)
      modifies this
      ensures effects == old(effects) + ToggleOff(mapToggled) && screenshotCount == old(screenshotCount)
    {
      if mapToggled {
        effects := effects + [Press('m'), Release('m')];
      } else {
        AppendNothing(effects);
      }
    }

    /** The `while self.is_running` loop, for as many passes as there are observations. */
    method TakeScreenshots(observations: seq<Observation>)
      modifies this
      ensures var s := Run(old(screenshotCount), screenWidth, screenHeight, observations);
              effects == old(effects) + s.effects && screenshotCount == s.count
    {
      var i := 0;
      while i < |observations|
        invariant 0 <= i <= |observations|
        invariant var s := Run(old(screenshotCount), screenWidth, screenHeight, observations[..i]);
                  effects == old(effects) + s.effects && screenshotCount == s.count
      {
        ghost var prev := Run(old(screenshotCount), screenWidth, screenHeight, observations[..i]);
        ghost var step := Iteration(prev.count, screenWidth, screenHeight, observations[i]);
        ghost var before := effects;
        var saved := Pass(observations[i]);
        assert effects == before + step.effects;
        RunStep(old(screenshotCount), screenWidth, screenHeight, observations, i);
        AppendAssoc(old(effects), prev.effects, step.effects);
        i := i + 1;
      }
      assert observations[..i] == observations;
    }
  }
}
