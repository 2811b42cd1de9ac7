/** `filter_sections`: narrowing a document's sections to what a `range`
    argument asks for. Word-processor formats read it as line numbers,
    spreadsheets as sheet names or indices with an optional row range, and
    every other format as the numbers that end the section labels. The
    `warning` component of the result is always `None` in the source and is
    not modelled. */
module SectionFilter {
  import opened Wrappers
  import opened Text
  import opened IntSets
  import opened Documents
  import opened Ranges
  import opened SectionNumbers
  import opened SectionLists

  /** The lines at the 1-based numbers in `js`, in the order of `js`;
      numbers outside `1..|lines|` are skipped. */
  function PickLines(lines: seq<string>, js: seq<int>): (r: seq<string>)
    ensures |r| <= |js|
    decreases |js|
  {
    if js == [] then []
    else (if 1 <= js[0] <= |lines| then [lines[js[0] - 1]] else []) + PickLines(lines, js[1..])
  }

  /** The lines at the given 1-based positions, all of which exist. */
  function LinesAt(lines: seq<string>, js: seq<int>): (r: seq<string>)
    requires forall k :: 0 <= k < |js| ==> 1 <= js[k] <= |lines|
    ensures |r| == |js|
    ensures forall k :: 0 <= k < |js| ==> r[k] == lines[js[k] - 1]
  {
    seq(|js|, k requires 0 <= k < |js| => lines[js[k] - 1])
  }

  /** The comprehension over `sorted(wanted)` shared by the line and the row filters. */
  function SelectLines(lines: seq<string>, wanted: set<int>): seq<string> {
    PickLines(lines, Sorted(wanted))
  }

  lemma {:induction false} PickLinesWithin(lines: seq<string>, js: seq<int>)
    ensures PickLines(lines, js) == LinesAt(lines, Within(js, 1, |lines|))
    decreases |js|
  {
    if js != [] {
      PickLinesWithin(lines, js[1..]);
      var rest := Within(js[1..], 1, |lines|);
      if 1 <= js[0] <= |lines| {
        assert Within(js, 1, |lines|) == [js[0]] + rest;
        LinesAtCons(lines, js[0], rest);
      } else {
        assert Within(js, 1, |lines|) == rest;
      }
    }
  }

  lemma LinesAtCons(lines: seq<string>, j: int, rest: seq<int>)
    requires 1 <= j <= |lines|
    requires forall k :: 0 <= k < |rest| ==> 1 <= rest[k] <= |lines|
    ensures LinesAt(lines, [j] + rest) == [lines[j - 1]] + LinesAt(lines, rest)
  {
    var js := [j] + rest;
    assert forall k :: 0 < k < |js| ==> js[k] == rest[k - 1];
  }

  /** The selected lines are the requested lines that exist, each once, in
      ascending order of line number, whatever order the range names them in. */
  lemma SelectedLines(lines: seq<string>, wanted: set<int>)
    ensures SelectLines(lines, wanted) == LinesAt(lines, Numbers(wanted, 1, |lines|))
  {
    PickLinesWithin(lines, Sorted(wanted));
    SortedWithin(wanted, 1, |lines|);
  }

  /** When every line from `lo` to `hi` is wanted, the enumeration is `lo, lo + 1, ..., hi`. */
  lemma {:induction false} NumbersFull(wanted: set<int>, lo: int, hi: int)
    requires forall j :: lo <= j <= hi ==> j in wanted
    ensures |Numbers(wanted, lo, hi)| == if hi < lo then 0 else hi - lo + 1
    ensures forall k :: 0 <= k < |Numbers(wanted, lo, hi)| ==> Numbers(wanted, lo, hi)[k] == lo + k
    decreases hi + 1 - lo
  {
    if lo <= hi {
      NumbersFull(wanted, lo + 1, hi);
      var rest := Numbers(wanted, lo + 1, hi);
      assert Numbers(wanted, lo, hi) == [lo] + rest;
    }
  }

  lemma LinesAtAll(lines: seq<string>, js: seq<int>)
    requires |js| == |lines| && forall k :: 0 <= k < |js| ==> js[k] == k + 1
    ensures LinesAt(lines, js) == lines
  {
  }

  /** Asking for every line gives all the lines, in order. */
  lemma AllLinesSelected(lines: seq<string>, wanted: set<int>)
    requires forall j :: 1 <= j <= |lines| ==> j in wanted
    ensures SelectLines(lines, wanted) == lines
  {
    var js := Numbers(wanted, 1, |lines|);
    assert LinesAt(lines, js) == lines by {
      NumbersFull(wanted, 1, |lines|);
      LinesAtAll(lines, js);
    }
    SelectedLines(lines, wanted);
  }

  /** Asking for every line of a text gives the text back. */
  lemma AllLinesKeepText(text: string, wanted: set<int>)
    requires forall j :: 1 <= j <= |Split(text, '\n')| ==> j in wanted
    ensures Join(SelectLines(Split(text, '\n'), wanted), "\n") == text
  {
    AllLinesSelected(Split(text, '\n'), wanted);
    SplitJoin(text, '\n');
  }

  /** The smallest and the largest wanted number, written with a dash
      between them. */
  function Span(wanted: set<int>): string
    requires wanted != {}
  {
    IntToString(Min(wanted)) + "-" + IntToString(Max(wanted))
  }

  /** An optional value as a sequence of at most one element. */
  function AsSeq(o: Option<Section>): (r: seq<Section>)
    ensures |r| <= 1
  {
    if o.Some? then [o.value] else []
  }

  // ---------------------------------------------------------------------
  // Line-addressed formats: .docx, .odt, .rtf

  /** What the line policy makes of one section: nothing when none of its
      lines is wanted, otherwise the wanted lines under a relabelled heading. */
  function LineSection(s: Section, wanted: set<int>): Option<Section> {
    var selected := SelectLines(Split(s.text, '\n'), wanted);
    if selected == [] then None
    else Some(Section(s.heading + " lines " + Span(wanted), Join(selected, "\n")))
  }

  /** What the line policy makes of each section. */
  function LineOutputs(wanted: set<int>): Section -> seq<Section> {
    s => AsSeq(LineSection(s, wanted))
  }

  /** The line policy over a list of sections, in order. */
  function LineFilter(sections: seq<Section>, wanted: set<int>): seq<Section> {
    FlatMap(sections, LineOutputs(wanted))
  }

  /** A section survives the line policy exactly when one of the wanted
      line numbers is one of its lines; it then carries those lines under
      `"<label> lines <min>-<max>"`. */
  lemma LineSectionKept(s: Section, wanted: set<int>)
    ensures LineSection(s, wanted).Some? <==>
      exists j :: j in wanted && 1 <= j <= |Split(s.text, '\n')|
    ensures LineSection(s, wanted).Some? ==>
      wanted != {} &&
      LineSection(s, wanted).value ==
        Section(s.heading + " lines " + Span(wanted),
                Join(LinesAt(Split(s.text, '\n'), Numbers(wanted, 1, |Split(s.text, '\n')|)), "\n"))
  {
    var lines := Split(s.text, '\n');
    SelectedLines(lines, wanted);
    SomeLineSelected(lines, wanted);
  }

  /** Some line is selected exactly when some wanted number is a line of the text. */
  lemma SomeLineSelected(lines: seq<string>, wanted: set<int>)
    ensures SelectLines(lines, wanted) != [] <==> exists j :: j in wanted && 1 <= j <= |lines|
    ensures SelectLines(lines, wanted) != [] ==> wanted != {}
  {
    SelectedLines(lines, wanted);
    var ns := Numbers(wanted, 1, |lines|);
    assert |SelectLines(lines, wanted)| == |ns|;
    if exists j :: j in wanted && 1 <= j <= |lines| {
      var j :| j in wanted && 1 <= j <= |lines|;
      assert j in ns;
    }
    if ns != [] {
      assert ns[0] in ns;
    }
  }

  /** Sections are filtered one by one: filtering a concatenation is
      concatenating the filtered parts. */
  lemma LineFilterAppend(a: seq<Section>, b: seq<Section>, wanted: set<int>)
    ensures LineFilter(a + b, wanted) == LineFilter(a, wanted) + LineFilter(b, wanted)
  {
    FlatMapAppend(a, b, LineOutputs(wanted));
  }

  /** The loop of the line policy, once the range is parsed. */
  method FilterLines(sections: seq<Section>, wanted: set<int>) returns (filtered: seq<Section>)
    ensures filtered == LineFilter(sections, wanted)
  {
    filtered := [];
    var i := 0;
    while i < |sections|
      invariant 0 <= i <= |sections|
      invariant filtered == LineFilter(sections[..i], wanted)
    {
      FlatMapStep(sections, LineOutputs(wanted), i);
      var kept := FilterLinesOf(sections[i], wanted);
      filtered := filtered + kept;
      i := i + 1;
    }
    assert sections[..|sections|] == sections;
  }

  /** The body of the line-policy loop, split out as a method: it computes
      what `LineSection` specifies, the relabelled section or nothing when
      none of the wanted lines exists. */
  method FilterLinesOf(s: Section, wanted: set<int>) returns (kept: seq<Section>)
    ensures kept == LineOutputs(wanted)(s)
  {
    var lines := Split(s.text, '\n');
    var selected := SelectLines(lines, wanted);
    if selected != [] {
      var lo, hi := Min(wanted), Max(wanted);
      var span := IntToString(lo) + "-" + IntToString(hi);
      kept := [Section(s.heading + " lines " + span, Join(selected, "\n"))];
    } else {
      kept := [];
    }
  }

  // ---------------------------------------------------------------------
  // Numbered-label formats: .pdf, .pptx, .odp, .epub

  /** The numbered-label policy keeps a section whose label number is wanted. */
  predicate NumberWanted(s: Section, wanted: set<int>) {
    SectionNumber(s.heading).Some? && SectionNumber(s.heading).value in wanted
  }

  /** The test of the numbered-label comprehension. */
  function NumberTest(wanted: set<int>): Section -> bool {
    s => NumberWanted(s, wanted)
  }

  /** The sections whose label ends in a wanted number, in document order
      and unchanged. */
  function NumberedFilter(sections: seq<Section>, wanted: set<int>): (r: seq<Section>)
    ensures |r| <= |sections|
    ensures forall k :: 0 <= k < |r| ==> r[k] in sections && NumberWanted(r[k], wanted)
  {
    var r := Where(sections, NumberTest(wanted));
    assert forall k :: 0 <= k < |r| ==> r[k] in sections && NumberWanted(r[k], wanted) by {
      forall k | 0 <= k < |r| ensures r[k] in sections && NumberWanted(r[k], wanted) {
        WhereMembers(sections, NumberTest(wanted), r[k]);
      }
    }
    r
  }

  /** The kept sections are exactly the input sections whose label number is wanted. */
  lemma NumberedFilterKeeps(sections: seq<Section>, wanted: set<int>, s: Section)
    ensures s in NumberedFilter(sections, wanted) <==> s in sections && NumberWanted(s, wanted)
  {
    WhereMembers(sections, NumberTest(wanted), s);
  }

  /** Sections are filtered one by one, keeping their order. */
  lemma NumberedFilterAppend(a: seq<Section>, b: seq<Section>, wanted: set<int>)
    ensures NumberedFilter(a + b, wanted) == NumberedFilter(a, wanted) + NumberedFilter(b, wanted)
  {
    WhereAppend(a, b, NumberTest(wanted));
  }

  /** A section labelled `"page 7"` (any prefix without a line break that
      does not end in a digit, followed by the number) is kept exactly when
      the range names its number. */
  lemma NumberedLabelKept(prefix: string, n: nat, text: string, wanted: set<int>)
    requires '\n' !in prefix
    requires prefix == [] || !IsDigit(prefix[|prefix| - 1])
    ensures NumberedFilter([Section(prefix + NatToString(n), text)], wanted) ==
      if n in wanted then [Section(prefix + NatToString(n), text)] else []
  {
    SectionNumberOfLabel(prefix, n);
    WhereSingle(Section(prefix + NatToString(n), text), NumberTest(wanted));
  }

  // ---------------------------------------------------------------------
  // Spreadsheet formats: .xlsx, .ods

  /** What a sheet range selects: sheets by name, sheets by 1-based
      position, and the rows to keep from each (`None`: all of them). */
  datatype SheetSelector = SheetSelector(names: set<string>, indices: set<int>, rows: Option<set<int>>)

  /** The selector before any token is read. */
  const NoSheets := SheetSelector({}, {}, None)

  /** One sheet reference added to the selector: a number `int()` accepts
      is a position; otherwise a reference without a dash is a name, and one
      with a dash is a range of positions if `parse_numeric_range` accepts
      it and a name if it does not. */
  function AddSheet(sel: SheetSelector, part: string): (r: SheetSelector)
    ensures r.rows == sel.rows
    ensures sel.names <= r.names && sel.indices <= r.indices
    ensures r.names <= sel.names + {part}
    ensures r.names == sel.names || r.indices == sel.indices
  {
    match ParseInt(part)
    case Some(n) => sel.(indices := sel.indices + {n})
    case None =>
      if '-' !in part then sel.(names := sel.names + {part})
      else
        match RangeOf(part)
        case Ok(numbers) => sel.(indices := sel.indices + numbers)
        case Err(_) => sel.(names := sel.names + {part})
  }

  /** One comma-separated token: whitespace and then quotes are stripped;
      text after the first `:` is a row range that replaces any earlier one,
      and the text before it is the sheet reference. */
  function SheetToken(sel: SheetSelector, token: string): Result<SheetSelector, Failure> {
    var part := StripQuotes(Strip(token));
    if ':' in part then
      var (sheetPart, rowPart) := SplitOnce(part, ':');
      match RangeOf(rowPart)
      case Err(e) => Err(e)
      case Ok(rows) => Ok(AddSheet(sel.(rows := Some(rows)), sheetPart))
    else Ok(AddSheet(sel, part))
  }

  /** `step` applied to the tokens left to right from `start`; the first
      failure stops the reading. */
  function FoldTokens<S>(tokens: seq<string>, start: S, step: (S, string) -> Result<S, Failure>): Result<S, Failure>
    decreases |tokens|
  {
    if tokens == [] then Ok(start)
    else
      match FoldTokens(tokens[..|tokens| - 1], start, step)
      case Err(e) => Err(e)
      case Ok(acc) => step(acc, tokens[|tokens| - 1])
  }

  lemma FoldTokensStep<S>(tokens: seq<string>, start: S, step: (S, string) -> Result<S, Failure>, i: nat, acc: S)
    requires i < |tokens| && FoldTokens(tokens[..i], start, step) == Ok(acc)
    ensures FoldTokens(tokens[..i + 1], start, step) == step(acc, tokens[i])
  {
    assert tokens[..i + 1][..i] == tokens[..i];
  }

  /** Once a prefix of the tokens fails, so does the whole reading. */
  lemma {:induction false} FoldTokensStops<S>(tokens: seq<string>, start: S, step: (S, string) -> Result<S, Failure>, i: nat)
    requires i <= |tokens| && FoldTokens(tokens[..i], start, step).Err?
    ensures FoldTokens(tokens, start, step) == FoldTokens(tokens[..i], start, step)
    decreases |tokens| - i
  {
    if i < |tokens| {
      assert tokens[..i + 1][..i] == tokens[..i];
      FoldTokensStops(tokens, start, step, i + 1);
    } else {
      assert tokens[..i] == tokens;
    }
  }

  /** Reading the token at `i` after the tokens before it: a failure is the
      outcome of the whole reading, a success extends it by one token. */
  lemma FoldTokensNext<S>(tokens: seq<string>, start: S, step: (S, string) -> Result<S, Failure>, i: nat, acc: S)
    requires i < |tokens| && FoldTokens(tokens[..i], start, step) == Ok(acc)
    ensures step(acc, tokens[i]).Err? ==> FoldTokens(tokens, start, step) == step(acc, tokens[i])
    ensures FoldTokens(tokens[..i + 1], start, step) == step(acc, tokens[i])
  {
    FoldTokensStep(tokens, start, step, i, acc);
    if step(acc, tokens[i]).Err? {
      FoldTokensStops(tokens, start, step, i + 1);
    }
  }

  /** Nothing read is the start; everything read is the whole reading. */
  lemma FoldTokensEnds<S>(tokens: seq<string>, start: S, step: (S, string) -> Result<S, Failure>)
    ensures FoldTokens(tokens[..0], start, step) == Ok(start)
    ensures FoldTokens(tokens[..|tokens|], start, step) == FoldTokens(tokens, start, step)
  {
    assert tokens[..0] == [];
    assert tokens[..|tokens|] == tokens;
  }

  /** The selector the tokens of a sheet range build. */
  function SelectorOf(tokens: seq<string>): Result<SheetSelector, Failure> {
    FoldTokens(tokens, NoSheets, SheetToken)
  }

  /** The body of the selector loop, split out as a method of its own; it
      computes what `SheetToken` specifies. */
  method ReadSheetToken(sel: SheetSelector, token: string) returns (r: Result<SheetSelector, Failure>)
    ensures r == SheetToken(sel, token)
  {
    var part := StripQuotes(Strip(token));
    var current := sel;
    if ':' in part {
      var (sheetPart, rowPart) := SplitOnce(part, ':');
      var rows := ParseNumericRange(rowPart);
      if rows.Err? {
        return Err(rows.error);
      }
      current := current.(rows := Some(rows.value));
      part := sheetPart;
    }
    var added := ReadSheetReference(current, part);
    r := Ok(added);
  }

  /** Reading the token at `i` after the ones before it: a failure is the
      result of the whole selector loop. */
  method ReadSheetTokenAt(parts: seq<string>, i: nat, sel: SheetSelector) returns (next: Result<SheetSelector, Failure>)
    requires i < |parts| && FoldTokens(parts[..i], NoSheets, SheetToken) == Ok(sel)
    ensures FoldTokens(parts[..i + 1], NoSheets, SheetToken) == next
    ensures next.Err? ==> SelectorOf(parts) == next
  {
    next := ReadSheetToken(sel, parts[i]);
    FoldTokensNext(parts, NoSheets, SheetToken, i, sel);
  }

  /** The part of the selector loop's body that files one sheet reference
      (the chain of attempts `AddSheet` specifies), split out as a method. */
  method ReadSheetReference(sel: SheetSelector, part: string) returns (r: SheetSelector)
    ensures r == AddSheet(sel, part)
  {
    var names, indices := sel.names, sel.indices;
    var n := ParseInt(part);
    if n.Some? {
      indices := indices + {n.value};
    } else if '-' !in part {
      names := names + {part};
    } else {
      var numbers := ParseNumericRange(part);
      if numbers.Ok? {
        indices := indices + numbers.value;
      } else {
        names := names + {part};
      }
    }
    r := SheetSelector(names, indices, sel.rows);
  }

  /** The selector loop of the sheet policy. */
  method ParseSheetSelector(rangeText: string) returns (r: Result<SheetSelector, Failure>)
    ensures r == SelectorOf(Split(rangeText, ','))
  {
    var parts := Split(rangeText, ',');
    var sel := NoSheets;
    var i := 0;
    FoldTokensEnds(parts, NoSheets, SheetToken);
    while i < |parts|
      invariant 0 <= i <= |parts|
      invariant FoldTokens(parts[..i], NoSheets, SheetToken) == Ok(sel)
    {
      var next := ReadSheetTokenAt(parts, i, sel);
      if next.Err? {
        return next;
      }
      sel := next.value;
      i := i + 1;
    }
    FoldTokensEnds(parts, NoSheets, SheetToken);
    r := Ok(sel);
  }

  /** The name a sheet section's label carries: the label without a leading
      `sheet '` and without a trailing quote, each removed only if present. */
  function SheetName(heading: string): string {
    RemoveSuffix(RemovePrefix(heading, "sheet '"), "'")
  }

  /** The sheet at 1-based `position` is asked for by its position or its name. */
  predicate Chosen(sel: SheetSelector, position: int, s: Section) {
    position in sel.indices || SheetName(s.heading) in sel.names
  }

  /** What the sheet policy makes of the sheet at `position`: nothing if it
      is not chosen, the sheet itself if no row range was given, and
      otherwise its wanted rows under `"<label> rows <min>-<max>"`, where an
      empty row range fails as `min()` of an empty set does. */
  function SheetSection(sel: SheetSelector, position: int, s: Section): Result<seq<Section>, Failure> {
    if !Chosen(sel, position, s) then Ok([])
    else
      match sel.rows
      case None => Ok([s])
      case Some(rows) =>
        if rows == {} then Err(EmptyRowRange)
        else Ok([RowSection(s, rows)])
  }

  /** A chosen sheet cut down to the wanted rows and relabelled with the
      smallest and largest wanted row. */
  function RowSection(s: Section, rows: set<int>): (r: Section)
    requires rows != {}
    ensures r.heading == s.heading + " rows " + Span(rows)
  {
    Section(s.heading + " rows " + Span(rows), Join(SelectLines(Split(s.text, '\n'), rows), "\n"))
  }

  /** What the sheet policy makes of each section and its position. */
  function SheetOutputs(sel: SheetSelector): (nat, Section) -> Result<seq<Section>, Failure> {
    (position, s) => SheetSection(sel, position, s)
  }

  /** The selection loop of the sheet policy, as a specification. */
  function SheetFilter(sections: seq<Section>, sel: SheetSelector): Result<seq<Section>, Failure> {
    TryFlatMap(sections, SheetOutputs(sel))
  }

  /** The selection loop of the sheet policy. */
  method FilterSheets(sections: seq<Section>, sel: SheetSelector) returns (r: Result<seq<Section>, Failure>)
    ensures r == SheetFilter(sections, sel)
  {
    var filtered: seq<Section> := [];
    var i := 0;
    assert sections[..0] == [];
    while i < |sections|
      invariant 0 <= i <= |sections|
      invariant SheetFilter(sections[..i], sel) == Ok(filtered)
    {
      TryFlatMapStep(sections, SheetOutputs(sel), i, filtered);
      var out := FilterSheetAt(sel, i + 1, sections[i]);
      if out.Err? {
        TryFlatMapStops(sections, SheetOutputs(sel), i + 1);
        return Err(out.error);
      }
      filtered := filtered + out.value;
      i := i + 1;
    }
    assert sections[..|sections|] == sections;
    r := Ok(filtered);
  }

  /** The body of the sheet-selection loop for the sheet at 1-based
      `position`, split out as a method; it computes what `SheetSection`
      specifies. */
  method FilterSheetAt(sel: SheetSelector, position: nat, s: Section) returns (r: Result<seq<Section>, Failure>)
    ensures r == SheetOutputs(sel)(position, s)
  {
    var sheetName := SheetName(s.heading);
    if position !in sel.indices && sheetName !in sel.names {
      return Ok([]);
    }
    if sel.rows.None? {
      return Ok([s]);
    }
    var rows := sel.rows.value;
    var selected := SelectLines(Split(s.text, '\n'), rows);
    if rows == {} {
      return Err(EmptyRowRange);
    }
    var lo, hi := Min(rows), Max(rows);
    var span := IntToString(lo) + "-" + IntToString(hi);
    r := Ok([Section(s.heading + " rows " + span, Join(selected, "\n"))]);
  }

  /** With a row range given, a chosen sheet keeps the wanted rows that
      exist, ascending, each once, under `"<label> rows <min>-<max>"`. */
  lemma ChosenSheetRows(sel: SheetSelector, position: int, s: Section)
    requires Chosen(sel, position, s) && sel.rows.Some? && sel.rows.value != {}
    ensures SheetSection(sel, position, s) ==
      Ok([Section(s.heading + " rows " + Span(sel.rows.value),
                  Join(LinesAt(Split(s.text, '\n'), Numbers(sel.rows.value, 1, |Split(s.text, '\n')|)), "\n"))])
  {
    SelectedLines(Split(s.text, '\n'), sel.rows.value);
  }

  /** The sheet policy fails exactly when the row range is empty and some
      sheet is chosen. */
  lemma SheetFilterFails(sections: seq<Section>, sel: SheetSelector)
    ensures SheetFilter(sections, sel).Err? <==>
      sel.rows == Some({}) && exists k :: 0 <= k < |sections| && Chosen(sel, k + 1, sections[k])
  {
    TryFlatMapFails(sections, SheetOutputs(sel));
    forall k | 0 <= k < |sections|
      ensures SheetOutputs(sel)(k + 1, sections[k]).Err? <==> sel.rows == Some({}) && Chosen(sel, k + 1, sections[k])
    {
    }
  }

  /** Without a row range the chosen sheets come out unchanged, and only they do. */
  lemma WholeSheets(sections: seq<Section>, sel: SheetSelector, x: Section)
    requires sel.rows.None?
    ensures SheetFilter(sections, sel).Ok?
    ensures x in SheetFilter(sections, sel).value <==>
      exists k :: 0 <= k < |sections| && sections[k] == x && Chosen(sel, k + 1, x)
  {
    SheetFilterFails(sections, sel);
    TryFlatMapMembers(sections, SheetOutputs(sel), x);
    forall k | 0 <= k < |sections|
      ensures SheetOutputs(sel)(k + 1, sections[k]) == if Chosen(sel, k + 1, sections[k]) then Ok([sections[k]]) else Ok([])
    {
    }
  }

  /** With a row range given, a section is in the output exactly when it is
      a chosen sheet cut down to the wanted rows; the other sheets are
      dropped. `SheetsWithRowsSnoc` states the order. */
  lemma SheetsWithRows(sections: seq<Section>, sel: SheetSelector, x: Section)
    requires sel.rows.Some? && sel.rows.value != {}
    ensures SheetFilter(sections, sel).Ok?
    ensures x in SheetFilter(sections, sel).value <==>
      exists k :: 0 <= k < |sections| && Chosen(sel, k + 1, sections[k]) && x == RowSection(sections[k], sel.rows.value)
  {
    assert SheetFilter(sections, sel).Ok? by { SheetFilterFails(sections, sel); }
    TryFlatMapMembers(sections, SheetOutputs(sel), x);
    forall k | 0 <= k < |sections|
      ensures SheetOutputs(sel)(k + 1, sections[k]) ==
        if Chosen(sel, k + 1, sections[k]) then Ok([RowSection(sections[k], sel.rows.value)]) else Ok([])
    {
      RowsOutput(sel, k + 1, sections[k]);
    }
  }

  lemma RowsOutput(sel: SheetSelector, position: nat, s: Section)
    requires sel.rows.Some? && sel.rows.value != {}
    ensures SheetOutputs(sel)(position, s) ==
      if Chosen(sel, position, s) then Ok([RowSection(s, sel.rows.value)]) else Ok([])
  {
  }

  /** Without a row range, one more sheet adds itself at the end of the
      output when it is chosen and nothing otherwise, so the output keeps
      the chosen sheets in document order, each once. */
  lemma WholeSheetsSnoc(sections: seq<Section>, sel: SheetSelector, s: Section)
    requires sel.rows.None?
    ensures SheetFilter(sections, sel).Ok? && SheetFilter(sections + [s], sel).Ok?
    ensures SheetFilter(sections + [s], sel).value ==
      SheetFilter(sections, sel).value + (if Chosen(sel, |sections| + 1, s) then [s] else [])
  {
    SheetFilterFails(sections, sel);
    assert (sections + [s])[..|sections|] == sections;
  }

  /** With a row range given, one more sheet adds its cut-down section at
      the end of the output when it is chosen and nothing otherwise, so the
      output keeps the chosen sheets in document order, one section each. */
  lemma SheetsWithRowsSnoc(sections: seq<Section>, sel: SheetSelector, s: Section)
    requires sel.rows.Some? && sel.rows.value != {}
    ensures SheetFilter(sections, sel).Ok? && SheetFilter(sections + [s], sel).Ok?
    ensures SheetFilter(sections + [s], sel).value ==
      SheetFilter(sections, sel).value + (if Chosen(sel, |sections| + 1, s) then [RowSection(s, sel.rows.value)] else [])
  {
    SheetFilterFails(sections, sel);
    assert (sections + [s])[..|sections|] == sections;
    RowsOutput(sel, |sections| + 1, s);
  }

  /** The row part of the last token whose stripped text holds a `:`, if any. */
  function LastRowPart(tokens: seq<string>): Option<string>
    decreases |tokens|
  {
    if tokens == [] then None
    else
      var part := StripQuotes(Strip(tokens[|tokens| - 1]));
      if ':' in part then Some(SplitOnce(part, ':').1) else LastRowPart(tokens[..|tokens| - 1])
  }

  /** Only the last `:` token's row range applies: a selector read without
      failure has no row range when no token holds a `:`, and otherwise the
      range of the last such token. */
  lemma {:induction false} SelectorRows(tokens: seq<string>)
    requires SelectorOf(tokens).Ok?
    ensures LastRowPart(tokens).None? ==> SelectorOf(tokens).value.rows == None
    ensures LastRowPart(tokens).Some? ==>
      RangeOf(LastRowPart(tokens).value).Ok? &&
      SelectorOf(tokens).value.rows == Some(RangeOf(LastRowPart(tokens).value).value)
    decreases |tokens|
  {
    if tokens != [] {
      var init := tokens[..|tokens| - 1];
      var last := tokens[|tokens| - 1];
      assert SelectorOf(init).Ok?;
      var acc := SelectorOf(init).value;
      assert SelectorOf(tokens) == SheetToken(acc, last);
      SheetTokenRows(acc, last);
      if ':' !in StripQuotes(Strip(last)) {
        SelectorRows(init);
      }
    }
  }

  /** What a token does to the row range: one without a `:` keeps it, one
      with a `:` replaces it by the range after the colon, and fails when
      that range does. The names and positions only ever grow. */
  lemma SheetTokenRows(sel: SheetSelector, token: string)
    ensures ':' !in StripQuotes(Strip(token)) ==>
      SheetToken(sel, token).Ok? && SheetToken(sel, token).value.rows == sel.rows
    ensures ':' in StripQuotes(Strip(token)) ==>
      var rowPart := SplitOnce(StripQuotes(Strip(token)), ':').1;
      (SheetToken(sel, token).Ok? <==> RangeOf(rowPart).Ok?) &&
      (SheetToken(sel, token).Ok? ==> SheetToken(sel, token).value.rows == Some(RangeOf(rowPart).value))
    ensures SheetToken(sel, token).Ok? ==>
      sel.names <= SheetToken(sel, token).value.names && sel.indices <= SheetToken(sel, token).value.indices
  {
  }

  /** A number names the sheet at that position. */
  lemma NumberPicksSheet(sel: SheetSelector, n: nat)
    ensures AddSheet(sel, NatToString(n)) == sel.(indices := sel.indices + {n})
  {
    ParseIntOfNatToString(n);
  }

  /** A text that `int()` cannot read: it starts with a character that is
      neither whitespace, a digit nor a sign, and does not end in
      whitespace. */
  lemma NotANumber(t: string)
    requires t != [] && !IsSpace(t[0]) && !IsDigit(t[0]) && t[0] != '+' && t[0] != '-'
    requires !IsSpace(t[|t| - 1])
    ensures ParseInt(t) == None
  {
    StripUnchanged(t);
    assert !AllDigits(t);
  }

  /** A reference without a dash that is not a number, such as `Revenue`,
      names a sheet. */
  lemma PlainNamePicksSheet(sel: SheetSelector, x: string)
    requires x != [] && !IsSpace(x[0]) && !IsDigit(x[0]) && x[0] != '+' && x[0] != '-'
    requires !IsSpace(x[|x| - 1]) && '-' !in x
    ensures AddSheet(sel, x) == sel.(names := sel.names + {x})
  {
    NotANumber(x);
  }

  /** A reference with a dash whose part before the dash is not a number,
      such as `Q1-2024` or `North-East`, fails as a range and names a sheet. */
  lemma DashedNameFallback(sel: SheetSelector, x: string, y: string)
    requires x != [] && !IsSpace(x[0]) && !IsDigit(x[0]) && x[0] != '+' && x[0] != '-'
    requires !IsSpace(x[|x| - 1]) && '-' !in x && ',' !in x
    requires ',' !in y && (y == [] || !IsSpace(y[|y| - 1]))
    ensures AddSheet(sel, x + "-" + y) == sel.(names := sel.names + {x + "-" + y})
  {
    var t := x + "-" + y;
    assert t[0] == x[0];
    assert t[|t| - 1] == if y == [] then '-' else y[|y| - 1];
    NotANumber(t);
    NotANumber(x);
    assert '-' in t by { assert t[|x|] == '-'; }
    assert ',' !in t;
    SingleTokenRange(t);
    StripUnchanged(t);
    SplitOnceAt(x, y, '-');
    assert RangeOf(t) == TokenRange(t);
    assert TokenRange(t) == Err(InvalidLiteral(x));
  }

  /** A range `a-b` names the sheets at positions `a` to `b`. */
  lemma SpanPicksSheets(sel: SheetSelector, a: nat, b: nat)
    ensures AddSheet(sel, NatToString(a) + "-" + NatToString(b)) == sel.(indices := sel.indices + Interval(a, b))
  {
    DashedIsNotInt(NatToString(a), NatToString(b));
    RangeOfSpan(a, b);
  }

  /** The label the spreadsheet decoders give a sheet yields its name back. */
  lemma SheetNameOfLabel(name: string)
    ensures SheetName("sheet '" + name + "'") == name
  {
    var heading := "sheet '" + name + "'";
    assert StartsWith(heading, "sheet '") by { assert heading[..7] == "sheet '"; }
    var rest := RemovePrefix(heading, "sheet '");
    assert rest == name + "'";
    assert EndsWith(rest, "'");
  }

  // ---------------------------------------------------------------------
  // The three policies together

  /** `filter_sections(sections, range_str, ext)` as a specification: the
      policy is chosen by the lower-cased extension; a range or row range
      that fails to parse, or an empty row range, is a `ValueError`. */
  function Filtered(sections: seq<Section>, rangeText: string, ext: string): Result<seq<Section>, Failure> {
    match PolicyOf(ext)
    case LineAddressed =>
      (match RangeOf(rangeText)
       case Err(e) => Err(e)
       case Ok(wanted) => Ok(LineFilter(sections, wanted)))
    case SheetAddressed =>
      (match SelectorOf(Split(rangeText, ','))
       case Err(e) => Err(e)
       case Ok(sel) => SheetFilter(sections, sel))
    case NumberedLabel =>
      (match RangeOf(rangeText)
       case Err(e) => Err(e)
       case Ok(wanted) => Ok(NumberedFilter(sections, wanted)))
  }

  /** `filter_sections(sections, range_str, ext)` */
  method FilterSections(sections: seq<Section>, rangeText: string, ext: string) returns (r: Result<seq<Section>, Failure>)
    ensures r == Filtered(sections, rangeText, ext)
  {
    if ext == ".docx" || ext == ".odt" || ext == ".rtf" {
      var lineRange := ParseNumericRange(rangeText);
      if lineRange.Err? {
        return Err(lineRange.error);
      }
      var filtered := FilterLines(sections, lineRange.value);
      return Ok(filtered);
    }
    if ext == ".xlsx" || ext == ".ods" {
      var sel := ParseSheetSelector(rangeText);
      if sel.Err? {
        return Err(sel.error);
      }
      r := FilterSheets(sections, sel.value);
      return;
    }
    var indices := ParseNumericRange(rangeText);
    if indices.Err? {
      return Err(indices.error);
    }
    r := Ok(NumberedFilter(sections, indices.value));
  }
}
