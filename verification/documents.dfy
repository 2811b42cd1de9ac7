/** The document model shared by the search and read tools: a decoded
    document is an ordered list of labelled sections; the set of supported
    file extensions and the output budget are fixed constants. */
module Documents {

  /** One `(label, text)` pair produced by a format decoder, such as
      `("page 3", "...")` or `("sheet 'Revenue'", "...")`. */
  datatype Section = Section(heading: string, text: string)

  /** What decoding one file gave: its sections in reading order, or the
      message of the exception the decoder raised. The decoders themselves
      (PDF, DOCX, XLSX, ... readers) are not part of this model. */
  datatype Extraction = Extracted(sections: seq<Section>) | ExtractionFailed(message: string)

  /** `SUPPORTED_EXTENSIONS` */
  const SupportedExtensions: set<string> :=
    {".pdf", ".docx", ".pptx", ".xlsx", ".odt", ".ods", ".odp", ".rtf", ".epub"}

  /** `MAX_OUTPUT_CHARS` */
  const MaxOutputChars: nat := 40000

  /** The exceptions the modelled code raises. */
  datatype Failure =
    | InvalidLiteral(literal: string)     // `int()` rejected this text (ValueError)
    | EmptyRowRange                       // `min()` of an empty row set (ValueError)
    | InvalidArgument(message: string)    // a ValueError raised by a tool with this message
    | DecoderFailure(message: string)     // the decoder of the file raised

  /** The three ways `filter_sections` reads a range, chosen by extension. */
  datatype Policy = LineAddressed | SheetAddressed | NumberedLabel

  /** The policy for a lower-cased extension. */
  function PolicyOf(ext: string): (p: Policy)
    ensures p == LineAddressed <==> ext in {".docx", ".odt", ".rtf"}
    ensures p == SheetAddressed <==> ext in {".xlsx", ".ods"}
  {
    if ext == ".docx" || ext == ".odt" || ext == ".rtf" then LineAddressed
    else if ext == ".xlsx" || ext == ".ods" then SheetAddressed
    else NumberedLabel
  }

  /** The numbered-label policy covers exactly the remaining supported formats. */
  lemma NumberedFormats(ext: string)
    requires ext in SupportedExtensions
    ensures PolicyOf(ext) == NumberedLabel <==> ext in {".pdf", ".pptx", ".odp", ".epub"}
  {
  }
}
