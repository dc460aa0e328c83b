/**
 * Region geometry: the chat, timer and map rectangles are written as pixel
 * offsets for a 1920x1080 screen and scaled to the actual resolution, each
 * coordinate truncated to an integer.
 *
 * The tool multiplies by the float `width / 1920`; the model uses the exact
 * quotient `k * width / 1920`, rounded down.
 */
module Regions {

  const ReferenceWidth: nat := 1920
  const ReferenceHeight: nat := 1080

  /** A crop box as PIL takes it: left, top, right, bottom. */
  datatype Rect = Rect(left: int, top: int, right: int, bottom: int) {
    /** Width of the image PIL's `crop` returns for this box. */
    function Width(): int {
      right - left
    }

    /** Height of the image PIL's `crop` returns for this box. */
    function Height(): int {
      bottom - top
    }
  }

  /** `int(k * (size / reference))`: `k` reference pixels scaled to `size`, rounded down. */
  function Scale(k: nat, size: nat, reference: nat): (r: nat)
    requires reference > 0
    ensures r * reference <= k * size < (r + 1) * reference
  {
    k * size / reference
  }

  /** The chat region (`chat_area`): on a 1920x1080 screen, the box from (20, 700) to (75, 725). */
  function ChatArea(width: nat, height: nat): (r: Rect)
    ensures width == ReferenceWidth && height == ReferenceHeight ==> r == Rect(20, 700, 75, 725)
  {
    Rect(Scale(20, width, ReferenceWidth), Scale(700, height, ReferenceHeight),
         Scale(75, width, ReferenceWidth), Scale(725, height, ReferenceHeight))
  }

  /** The timer region (`time_area`): on a 1920x1080 screen, 300 by 42 pixels from (300, 50). */
  function TimeArea(width: nat, height: nat): (r: Rect)
    ensures width == ReferenceWidth && height == ReferenceHeight ==> r == Rect(300, 50, 600, 92)
  {
    Rect(Scale(300, width, ReferenceWidth), Scale(50, height, ReferenceHeight),
         Scale(300 + 300, width, ReferenceWidth), Scale(50 + 42, height, ReferenceHeight))
  }

  /** The map region (`map_area`): on a 1920x1080 screen, 974 by 974 pixels from (638, 53). */
  function MapArea(width: nat, height: nat): (r: Rect)
    ensures width == ReferenceWidth && height == ReferenceHeight ==> r == Rect(638, 53, 1612, 1027)
  {
    Rect(Scale(638, width, ReferenceWidth), Scale(53, height, ReferenceHeight),
         Scale(638 + 974, width, ReferenceWidth), Scale(53 + 974, height, ReferenceHeight))
  }

  /** A box whose corners are in order, inside a `width` by `height` screen. */
  predicate InsideScreen(r: Rect, width: nat, height: nat) {
    0 <= r.left <= r.right <= width && 0 <= r.top <= r.bottom <= height
  }

  /** Multiplying by a non-negative factor keeps order. */
  lemma MulMonotone(a: int, b: int, c: int)
    requires a <= b && c >= 0
    ensures a * c <= b * c
  {
    assert (b - a) * c >= 0;
    assert (b - a) * c == b * c - a * c;
  }

  /** Scaling keeps the order of offsets. */
  lemma ScaleMonotone(a: nat, b: nat, size: nat, reference: nat)
    requires reference > 0 && a <= b
    ensures Scale(a, size, reference) <= Scale(b, size, reference)
  {
    var x, y := Scale(a, size, reference), Scale(b, size, reference);
    MulMonotone(a, b, size);
    if x > y {
      MulMonotone(y + 1, x, reference);
    }
  }

  /** An offset no larger than the reference size scales to at most the actual size. */
  lemma ScaleWithin(k: nat, size: nat, reference: nat)
    requires 0 < reference && k <= reference
    ensures Scale(k, size, reference) <= size
  {
    var r := Scale(k, size, reference);
    MulMonotone(k, reference, size);
    assert reference * size == size * reference;
    if r > size {
      MulMonotone(size + 1, r, reference);
    }
  }

  /** Scaling a sum loses at most the fractional parts: it is at least the sum of the scaled parts. */
  lemma ScaleSplit(a: nat, d: nat, size: nat, reference: nat)
    requires reference > 0
    ensures Scale(a + d, size, reference) >= Scale(a, size, reference) + Scale(d, size, reference)
  {
    var x, y, z := Scale(a, size, reference), Scale(d, size, reference), Scale(a + d, size, reference);
    assert (a + d) * size == a * size + d * size;
    assert (x + y) * reference == x * reference + y * reference;
    if z < x + y {
      MulMonotone(z + 1, x + y, reference);
    }
  }

  /** For every screen size, all three regions are ordered boxes that lie inside the screen. */
  lemma RegionsInsideScreen(width: nat, height: nat)
    ensures InsideScreen(ChatArea(width, height), width, height)
    ensures InsideScreen(TimeArea(width, height), width, height)
    ensures InsideScreen(MapArea(width, height), width, height)
  {
    ScaleMonotone(20, 75, width, ReferenceWidth);
    ScaleMonotone(700, 725, height, ReferenceHeight);
    ScaleMonotone(300, 600, width, ReferenceWidth);
    ScaleMonotone(50, 92, height, ReferenceHeight);
    ScaleMonotone(638, 1612, width, ReferenceWidth);
    ScaleMonotone(53, 1027, height, ReferenceHeight);
    ScaleWithin(75, width, ReferenceWidth);
    ScaleWithin(725, height, ReferenceHeight);
    ScaleWithin(600, width, ReferenceWidth);
    ScaleWithin(92, height, ReferenceHeight);
    ScaleWithin(1612, width, ReferenceWidth);
    ScaleWithin(1027, height, ReferenceHeight);
  }

  /** On a screen `m` times the reference resolution every offset is multiplied by exactly `m`. */
  lemma ScaleAtMultiple(k: nat, m: nat, reference: nat)
    requires reference > 0
    ensures Scale(k, m * reference, reference) == m * k
  {
    var r, q := Scale(k, m * reference, reference), m * k;
    assert k * (m * reference) == q * reference;
    if r < q {
      MulMonotone(r + 1, q, reference);
    } else if r > q {
      MulMonotone(q + 1, r, reference);
    }
  }

  /** At the reference resolution (and its integer multiples) the regions are the literal offsets, scaled by `m`. */
  lemma RegionsAtMultiple(m: nat)
    ensures ChatArea(m * ReferenceWidth, m * ReferenceHeight) == Rect(20 * m, 700 * m, 75 * m, 725 * m)
    ensures TimeArea(m * ReferenceWidth, m * ReferenceHeight) == Rect(300 * m, 50 * m, 600 * m, 92 * m)
    ensures MapArea(m * ReferenceWidth, m * ReferenceHeight) == Rect(638 * m, 53 * m, 1612 * m, 1027 * m)
  {
    ScaleAtMultiple(20, m, ReferenceWidth);
    ScaleAtMultiple(75, m, ReferenceWidth);
    ScaleAtMultiple(300, m, ReferenceWidth);
    ScaleAtMultiple(600, m, ReferenceWidth);
    ScaleAtMultiple(638, m, ReferenceWidth);
    ScaleAtMultiple(1612, m, ReferenceWidth);
    ScaleAtMultiple(700, m, ReferenceHeight);
    ScaleAtMultiple(725, m, ReferenceHeight);
    ScaleAtMultiple(50, m, ReferenceHeight);
    ScaleAtMultiple(92, m, ReferenceHeight);
    ScaleAtMultiple(53, m, ReferenceHeight);
    ScaleAtMultiple(1027, m, ReferenceHeight);
  }

  /**
   * The map crop is empty (zero width or height) exactly on screens
   * narrower or lower than two pixels.
   */
  lemma MapAreaNonEmpty(width: nat, height: nat)
    ensures MapArea(width, height).Width() > 0 && MapArea(width, height).Height() > 0
            <==> width >= 2 && height >= 2
  {
    if width >= 2 {
      ScaleSplit(638, 974, width, ReferenceWidth);
      assert Scale(974, width, ReferenceWidth) >= 1;
    } else {
      assert Scale(1612, width, ReferenceWidth) == 0;
    }
    if height >= 2 {
      ScaleSplit(53, 974, height, ReferenceHeight);
      assert Scale(974, height, ReferenceHeight) >= 1;
    } else {
      assert Scale(1027, height, ReferenceHeight) == 0;
    }
  }

  /**
   * Whenever the map crop is empty, so is the chat crop: a screen too small
   * for the map is too small for the chat box as well.
   */
  lemma EmptyMapCropEmptyChatCrop(width: nat, height: nat)
    requires !(MapArea(width, height).Width() > 0 && MapArea(width, height).Height() > 0)
    ensures ChatArea(width, height).Width() <= 0 || ChatArea(width, height).Height() <= 0
  {
    MapAreaNonEmpty(width, height);
    if width < 2 {
      assert Scale(20, width, ReferenceWidth) == 0 && Scale(75, width, ReferenceWidth) == 0;
    } else {
      assert Scale(700, height, ReferenceHeight) == 0 && Scale(725, height, ReferenceHeight) == 0;
    }
  }
}
