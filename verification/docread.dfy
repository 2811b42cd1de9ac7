/** The `docread` tool: reading one document and rendering its sections as
    text, optionally narrowed by a `range` argument, with the output capped
    at `MAX_OUTPUT_CHARS` characters. Resolving the path and asking the file
    system whether it names a file become parameters, and the decoder's
    result is given as an `Extraction`. */
module DocRead {
  import opened Wrappers
  import opened Text
  import opened Documents
  import opened SectionFilter

  /** One section rendered: its label between `===` markers on a line of
      its own, then its text and a line break. */
  function Block(s: Section): (r: string)
    ensures StartsWith(r, "=== ")
  {
    "=== " + s.heading + " ===\n" + s.text + "\n"
  }

  /** The blocks of the sections, in order. */
  function Blocks(sections: seq<Section>): (r: seq<string>)
    ensures |r| == |sections|
    decreases |sections|
  {
    if sections == [] then [] else Blocks(sections[..|sections| - 1]) + [Block(sections[|sections| - 1])]
  }

  /** The blocks joined with line breaks, so consecutive blocks are
      separated by a blank line. */
  function Render(sections: seq<Section>): string {
    Join(Blocks(sections), "\n")
  }

  /** What a document without sections reads as. */
  const NoTextContent: string := "No text content found."

  /** The notice appended to a truncated output. */
  function TruncationNotice(): string {
    "\n\n... output truncated at " + NatToString(MaxOutputChars) + " chars. Use range to narrow results."
  }

  /** Output longer than `MAX_OUTPUT_CHARS` keeps its first `MAX_OUTPUT_CHARS`
      characters and gets the notice. */
  function Truncate(result: string): string {
    if |result| > MaxOutputChars then result[..MaxOutputChars] + TruncationNotice() else result
  }

  /** The text `docread` returns for the sections it ends up with. */
  function Output(sections: seq<Section>): string {
    if sections == [] then NoTextContent else Truncate(Render(sections))
  }

  /** The supported extensions as the error message lists them: sorted,
      separated by commas. */
  const SupportedListing: seq<string> := [".docx", ".epub", ".odp", ".ods", ".odt", ".pdf", ".pptx", ".rtf", ".xlsx"]

  /** Python's `<` on strings: code point by code point, a proper prefix first. */
  predicate Precedes(a: string, b: string)
    decreases |a|
  {
    if a == [] then b != []
    else b != [] && (a[0] < b[0] || (a[0] == b[0] && Precedes(a[1..], b[1..])))
  }

  /** The listing names every supported extension and nothing else. */
  lemma SupportedListingElements()
    ensures forall e :: e in SupportedListing <==> e in SupportedExtensions
  {
  }

  /** The listing is in ascending order, as `sorted` leaves it. */
  lemma SupportedListingSorted()
    ensures forall i :: 0 <= i < |SupportedListing| - 1 ==> Precedes(SupportedListing[i], SupportedListing[i + 1])
  {
    assert Precedes(".docx", ".epub") && Precedes(".epub", ".odp") && Precedes(".odp", ".ods");
    assert Precedes(".ods", ".odt") && Precedes(".odt", ".pdf") && Precedes(".pdf", ".pptx");
    assert Precedes(".pptx", ".rtf") && Precedes(".rtf", ".xlsx");
  }

  /** The `ValueError` for a file whose extension is not supported. */
  function UnsupportedType(suffix: string): Failure {
    InvalidArgument("Unsupported file type: " + suffix + ". Supported: " + Join(SupportedListing, ", "))
  }

  /** `docread(filepath, range)` as a specification. `isFile` says whether
      the resolved path is a file, `suffix` is its `Path.suffix`, and
      `extraction` is what decoding it gives. */
  function ReadResult(filepath: string, isFile: bool, suffix: string, extraction: Extraction, range: Option<string>): Result<string, Failure> {
    if !isFile then Err(InvalidArgument("File not found: " + filepath))
    else if Lower(suffix) !in SupportedExtensions then Err(UnsupportedType(suffix))
    else if extraction.ExtractionFailed? then Err(DecoderFailure(extraction.message))
    else if range.None? || range.value == [] then Ok(Output(extraction.sections))
    else
      match Filtered(extraction.sections, range.value, Lower(suffix))
      case Err(e) => Err(e)
      case Ok(sections) => Ok(Output(sections))
  }

  /** `docread(filepath, range)` */
  method ReadDocument(filepath: string, isFile: bool, suffix: string, extraction: Extraction, range: Option<string>)
    returns (r: Result<string, Failure>)
    ensures r == ReadResult(filepath, isFile, suffix, extraction, range)
  {
    if !isFile {
      return Err(InvalidArgument("File not found: " + filepath));
    }
    if Lower(suffix) !in SupportedExtensions {
      return Err(UnsupportedType(suffix));
    }
    if extraction.ExtractionFailed? {
      return Err(DecoderFailure(extraction.message));
    }
    var sections := extraction.sections;
    if range.Some? && range.value != [] {
      var filtered := FilterSections(sections, range.value, Lower(suffix));
      if filtered.Err? {
        return Err(filtered.error);
      }
      sections := filtered.value;
    }
    var text := Assemble(sections);
    r := Ok(text);
  }

  /** The last part of `docread`: the sentinel for no sections, otherwise
      the blocks joined by blank lines and truncated. */
  method Assemble(sections: seq<Section>) returns (result: string)
    ensures result == Output(sections)
  {
    if sections == [] {
      return NoTextContent;
    }
    result := RenderBlocks(sections);
    if |result| > MaxOutputChars {
      result := result[..MaxOutputChars] + "\n\n... output truncated at " + NatToString(MaxOutputChars) + " chars. Use range to narrow results.";
    }
  }

  /** The loop that builds one block per section and joins them. */
  method RenderBlocks(sections: seq<Section>) returns (result: string)
    ensures result == Render(sections)
  {
    var output: seq<string> := [];
    var i := 0;
    while i < |sections|
      invariant 0 <= i <= |sections|
      invariant output == Blocks(sections[..i])
    {
      assert sections[..i + 1][..i] == sections[..i];
      output := output + ["=== " + sections[i].heading + " ===\n" + sections[i].text + "\n"];
      i := i + 1;
    }
    assert sections[..|sections|] == sections;
    result := Join(output, "\n");
  }

  /** A non-empty rendering starts with the first section's header. */
  lemma {:induction false} RenderStarts(sections: seq<Section>)
    requires sections != []
    ensures StartsWith(Render(sections), "=== ")
    ensures StartsWith(Render(sections), Block(sections[0]))
    decreases |sections|
  {
    if |sections| == 1 {
      assert Blocks(sections) == [Block(sections[0])];
    } else {
      var init := sections[..|sections| - 1];
      RenderStarts(init);
      JoinSnoc(Blocks(init), Block(sections[|sections| - 1]), "\n");
      assert init[0] == sections[0];
      var whole := Render(sections);
      assert whole == Render(init) + "\n" + Block(sections[|sections| - 1]);
      assert whole[..|Block(sections[0])|] == Render(init)[..|Block(sections[0])|];
    }
  }

  /** Rendering one more section adds a blank line and its block. */
  lemma RenderSnoc(sections: seq<Section>, s: Section)
    ensures Render(sections + [s]) == if sections == [] then Block(s) else Render(sections) + "\n" + Block(s)
  {
    assert (sections + [s])[..|sections|] == sections;
    JoinSnoc(Blocks(sections), Block(s), "\n");
  }

  /** The sentinel is returned exactly when no section is left: a rendered
      document always starts with a header, which the sentinel does not. */
  lemma OutputEmptyIff(sections: seq<Section>)
    ensures Output(sections) == NoTextContent <==> sections == []
  {
    if sections != [] {
      RenderStarts(sections);
      var out := Output(sections);
      assert out[0] == Render(sections)[0] == '=';
      assert NoTextContent[0] == 'N';
    }
  }

  /** The output never exceeds the cap by more than the notice, and a
      rendering within the cap is returned whole. */
  lemma OutputBounded(sections: seq<Section>)
    requires sections != []
    ensures |Output(sections)| <= MaxOutputChars + |TruncationNotice()|
    ensures |Render(sections)| <= MaxOutputChars ==> Output(sections) == Render(sections)
    ensures |Render(sections)| > MaxOutputChars ==>
      Output(sections) == Render(sections)[..MaxOutputChars] + TruncationNotice()
  {
  }

  /** Truncation keeps what it keeps unchanged: the output always begins
      with the first `MAX_OUTPUT_CHARS` characters of the rendering (all of
      it when shorter). */
  lemma TruncatePreservesPrefix(result: string)
    ensures var n := if |result| < MaxOutputChars then |result| else MaxOutputChars;
      n <= |Truncate(result)| && Truncate(result)[..n] == result[..n]
  {
  }

  /** Without a range, or with an empty one, every decoded section is shown. */
  lemma NoRangeShowsAll(filepath: string, suffix: string, sections: seq<Section>, range: Option<string>)
    requires Lower(suffix) in SupportedExtensions
    requires range.None? || range.value == []
    ensures ReadResult(filepath, true, suffix, Extracted(sections), range) == Ok(Output(sections))
  {
  }
}
