/**
 * What the OCR engine hands back for one preprocessed region. The engine
 * itself is not modelled: its text is an input, and an exception it raises
 * is the `OcrError` case, which both recognisers catch.
 */
module Ocr {
  datatype OcrOutput = Recognized(text: string) | OcrError
}
