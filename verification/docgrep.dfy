/** The `docgrep` tool: searching every supported document under a
    directory for lines a regular expression matches, one output line per
    hit in the form `path:section:line`, at most `max_results` of them.
    Walking the directory becomes a given list of entries, already in the
    order `sorted(root.rglob("*"))` yields them; the compiled expression
    becomes a given line predicate. */
module DocGrep {
  import opened Wrappers
  import opened Text
  import opened Documents
  import opened SectionLists

  /** One path under the searched directory: its components relative to the
      root, whether it is a file, its `Path.suffix`, and what decoding it
      gives. */
  datatype Entry = Entry(parts: seq<string>, isFile: bool, suffix: string, extraction: Extraction)

  /** The outcome of `re.compile`: a line test (`regex.search(line)` is
      truthy), or the reason the pattern was refused. */
  datatype Pattern = Compiled(search: string -> bool) | Invalid(reason: string)

  /** The path of an entry relative to the searched directory, as its
      components joined with slashes. */
  function RelPath(e: Entry): string {
    Join(e.parts, "/")
  }

  /** Some component of the relative path starts with a dot. */
  predicate Hidden(e: Entry) {
    exists k :: 0 <= k < |e.parts| && StartsWith(e.parts[k], ".")
  }

  /** A requested file type with a leading dot, added when it has none. */
  function Dotted(ext: string): (r: string)
    ensures StartsWith(r, ".")
  {
    if StartsWith(ext, ".") then ext else "." + ext
  }

  /** The extensions searched: all supported ones unless `file_types` is a
      non-empty list, and then the supported ones it names. */
  function AllowedExtensions(fileTypes: Option<seq<string>>): (r: set<string>)
    ensures r <= SupportedExtensions
  {
    if fileTypes.None? || fileTypes.value == [] then SupportedExtensions
    else (set k | 0 <= k < |fileTypes.value| :: Dotted(fileTypes.value[k])) * SupportedExtensions
  }

  /** An entry the loop decodes: a file with an allowed lower-cased suffix
      and no hidden component. */
  predicate Searched(e: Entry, allowed: set<string>) {
    e.isFile && Lower(e.suffix) in allowed && !Hidden(e)
  }

  /** The output line for a matching line. */
  function MatchLine(rel: string, heading: string, line: string): string {
    rel + ":" + heading + ":" + Strip(line)
  }

  /** The output line for a file that failed to decode. */
  function ErrorLine(rel: string, message: string): string {
    rel + ":error:" + message
  }

  /** The hit one line of a section gives, if the pattern matches it. */
  function LineHit(rel: string, heading: string, search: string -> bool): string -> seq<string> {
    (line: string) => if search(line) then [MatchLine(rel, heading, line)] else []
  }

  /** The hits in one section, line by line. */
  function SectionHits(rel: string, search: string -> bool): Section -> seq<string> {
    (s: Section) => FlatMap(SplitLines(s.text), LineHit(rel, s.heading, search))
  }

  /** Everything one entry contributes before the cap applies. */
  function FileHits(e: Entry, allowed: set<string>, search: string -> bool): seq<string> {
    if !Searched(e, allowed) then []
    else match e.extraction
      case ExtractionFailed(message) => [ErrorLine(RelPath(e), message)]
      case Extracted(sections) => FlatMap(sections, SectionHits(RelPath(e), search))
  }

  function EntryHits(allowed: set<string>, search: string -> bool): Entry -> seq<string> {
    (e: Entry) => FileHits(e, allowed, search)
  }

  /** Every hit of the walk, uncapped. */
  function AllHits(entries: seq<Entry>, allowed: set<string>, search: string -> bool): seq<string> {
    FlatMap(entries, EntryHits(allowed, search))
  }

  /** The first `n` elements; none when `n` is not positive. */
  function Take(xs: seq<string>, n: int): (r: seq<string>)
    ensures |r| <= |xs| && r == xs[..|r|]
    ensures |r| == if n <= 0 then 0 else if n < |xs| then n else |xs|
  {
    if n <= 0 then [] else if n < |xs| then xs[..n] else xs
  }

  /** When the cap is not reached, nothing was cut off. */
  lemma TakeBelowCap(xs: seq<string>, n: int)
    requires |Take(xs, n)| < n
    ensures Take(xs, n) == xs
  {
  }

  /** Once the cap is reached, later hits change nothing. */
  lemma TakeAtCap(xs: seq<string>, ys: seq<string>, n: int)
    requires |Take(xs, n)| >= n
    ensures Take(xs + ys, n) == Take(xs, n)
  {
    if n > 0 {
      assert (xs + ys)[..n] == xs[..n];
    }
  }

  /** Below the cap, one more hit is kept. */
  lemma TakeSnoc(xs: seq<string>, y: string, n: int)
    requires |Take(xs, n)| < n
    ensures Take(xs + [y], n) == Take(xs, n) + [y]
  {
  }

  /** `docgrep(directory, pattern, file_types, max_results)` as a
      specification; `isDir` says whether the resolved directory is one. */
  function GrepResult(directory: string, isDir: bool, entries: seq<Entry>, pattern: Pattern,
                      fileTypes: Option<seq<string>>, maxResults: int): Result<string, Failure> {
    if !isDir then Err(InvalidArgument("Not a directory: " + directory))
    else match pattern
      case Invalid(reason) => Err(InvalidArgument("Invalid regex pattern: " + reason))
      case Compiled(search) =>
        var results := Take(AllHits(entries, AllowedExtensions(fileTypes), search), maxResults);
        Ok(if results == [] then "No matches found." else Join(results, "\n"))
  }

  /** Continuing past `xs[..k]`: what `xs[k]` adds comes next. */
  lemma HitsExtend<T>(before: seq<string>, xs: seq<T>, f: T -> seq<string>, k: nat)
    requires k < |xs|
    ensures before + FlatMap(xs[..k + 1], f) == (before + FlatMap(xs[..k], f)) + f(xs[k])
  {
    FlatMapStep(xs, f, k);
  }

  /** Stopping at the cap after `xs[..k]` gives what running to the end would. */
  lemma HitsAtCap<T>(before: seq<string>, xs: seq<T>, f: T -> seq<string>, k: nat, n: int)
    requires k <= |xs|
    requires |Take(before + FlatMap(xs[..k], f), n)| >= n
    ensures Take(before + FlatMap(xs, f), n) == Take(before + FlatMap(xs[..k], f), n)
  {
    assert xs == xs[..k] + xs[k..];
    FlatMapAppend(xs[..k], xs[k..], f);
    assert before + FlatMap(xs, f) == (before + FlatMap(xs[..k], f)) + FlatMap(xs[k..], f);
    TakeAtCap(before + FlatMap(xs[..k], f), FlatMap(xs[k..], f), n);
  }

  /** Running to the end of `xs`. */
  lemma HitsEnds<T>(before: seq<string>, xs: seq<T>, f: T -> seq<string>)
    ensures before + FlatMap(xs[..|xs|], f) == before + FlatMap(xs, f)
    ensures before + FlatMap(xs[..0], f) == before
  {
    assert xs[..|xs|] == xs;
    assert xs[..0] == [];
  }

  /** The innermost loop: the lines of one section, stopping at the cap. */
  method SearchLines(rel: string, heading: string, lines: seq<string>, search: string -> bool,
                     ghost before: seq<string>, results: seq<string>, maxResults: int)
    returns (out: seq<string>)
    requires results == Take(before, maxResults)
    ensures out == Take(before + FlatMap(lines, LineHit(rel, heading, search)), maxResults)
  {
    ghost var f := LineHit(rel, heading, search);
    out := results;
    var k := 0;
    HitsEnds(before, lines, f);
    while k < |lines|
      invariant 0 <= k <= |lines|
      invariant out == Take(before + FlatMap(lines[..k], f), maxResults)
    {
      if |out| >= maxResults {
        HitsAtCap(before, lines, f, k, maxResults);
        return;
      }
      ghost var done := before + FlatMap(lines[..k], f);
      HitsExtend(before, lines, f, k);
      TakeBelowCap(done, maxResults);
      if search(lines[k]) {
        TakeSnoc(done, MatchLine(rel, heading, lines[k]), maxResults);
        out := out + [rel + ":" + heading + ":" + Strip(lines[k])];
      } else {
        assert done + f(lines[k]) == done;
      }
      k := k + 1;
    }
  }

  /** The middle loop: the sections of one decoded file, stopping at the cap. */
  method SearchSections(rel: string, sections: seq<Section>, search: string -> bool,
                        ghost before: seq<string>, results: seq<string>, maxResults: int)
    returns (out: seq<string>)
    requires results == Take(before, maxResults)
    ensures out == Take(before + FlatMap(sections, SectionHits(rel, search)), maxResults)
  {
    ghost var f := SectionHits(rel, search);
    out := results;
    var j := 0;
    HitsEnds(before, sections, f);
    while j < |sections|
      invariant 0 <= j <= |sections|
      invariant out == Take(before + FlatMap(sections[..j], f), maxResults)
    {
      if |out| >= maxResults {
        HitsAtCap(before, sections, f, j, maxResults);
        return;
      }
      ghost var done := before + FlatMap(sections[..j], f);
      HitsExtend(before, sections, f, j);
      out := SearchLines(rel, sections[j].heading, SplitLines(sections[j].text), search, done, out, maxResults);
      j := j + 1;
    }
  }

  /** What the walk collects from one entry, given the results so far. */
  method SearchEntry(e: Entry, allowed: set<string>, search: string -> bool,
                     ghost before: seq<string>, results: seq<string>, maxResults: int)
    returns (out: seq<string>)
    requires results == Take(before, maxResults) && |results| < maxResults
    ensures out == Take(before + FileHits(e, allowed, search), maxResults)
  {
    if !e.isFile || Lower(e.suffix) !in allowed {
      assert before + [] == before;
      return results;
    }
    if exists k :: 0 <= k < |e.parts| && StartsWith(e.parts[k], ".") {
      assert before + [] == before;
      return results;
    }
    var rel := Join(e.parts, "/");
    if e.extraction.ExtractionFailed? {
      TakeBelowCap(before, maxResults);
      TakeSnoc(before, rel + ":error:" + e.extraction.message, maxResults);
      return results + [rel + ":error:" + e.extraction.message];
    }
    out := SearchSections(rel, e.extraction.sections, search, before, results, maxResults);
  }

  /** The value `max_results` takes when the caller leaves it out. */
  const DefaultMaxResults: int := 100

  /** `docgrep(directory, pattern, file_types, max_results)`; a caller that
      leaves `max_results` out passes `DefaultMaxResults`. */
  method Grep(directory: string, isDir: bool, entries: seq<Entry>, pattern: Pattern,
              fileTypes: Option<seq<string>>, maxResults: int)
    returns (r: Result<string, Failure>)
    ensures r == GrepResult(directory, isDir, entries, pattern, fileTypes, maxResults)
  {
    if !isDir {
      return Err(InvalidArgument("Not a directory: " + directory));
    }
    if pattern.Invalid? {
      return Err(InvalidArgument("Invalid regex pattern: " + pattern.reason));
    }
    var search := pattern.search;
    var allowed := AllowedExtensions(fileTypes);
    var results: seq<string> := [];
    var i := 0;
    ghost var f := EntryHits(allowed, search);
    HitsEnds([], entries, f);
    while i < |entries|
      invariant 0 <= i <= |entries|
      invariant results == Take([] + FlatMap(entries[..i], f), maxResults)
    {
      if |results| >= maxResults {
        HitsAtCap([], entries, f, i, maxResults);
        break;
      }
      ghost var done := [] + FlatMap(entries[..i], f);
      HitsExtend([], entries, f, i);
      results := SearchEntry(entries[i], allowed, search, done, results, maxResults);
      i := i + 1;
    }
    assert [] + FlatMap(entries, f) == AllHits(entries, allowed, search);
    if results == [] {
      return Ok("No matches found.");
    }
    r := Ok(Join(results, "\n"));
  }

  /** `y` is the output line for a matching line of section `s`. */
  predicate FromSection(rel: string, s: Section, search: string -> bool, y: string) {
    exists i :: 0 <= i < |SplitLines(s.text)| && search(SplitLines(s.text)[i])
      && y == MatchLine(rel, s.heading, SplitLines(s.text)[i])
  }

  /** `y` is the error line of `e`, or the output line for a matching line
      of one of its decoded sections. */
  predicate FromEntry(e: Entry, search: string -> bool, y: string) {
    match e.extraction
    case ExtractionFailed(message) => y == ErrorLine(RelPath(e), message)
    case Extracted(sections) => exists j :: 0 <= j < |sections| && FromSection(RelPath(e), sections[j], search, y)
  }

  lemma SectionHitsMembers(rel: string, s: Section, search: string -> bool, y: string)
    ensures y in SectionHits(rel, search)(s) <==> FromSection(rel, s, search, y)
  {
    var lines := SplitLines(s.text);
    var f := LineHit(rel, s.heading, search);
    FlatMapMembers(lines, f, y);
    forall i | 0 <= i < |lines|
      ensures y in f(lines[i]) <==> search(lines[i]) && y == MatchLine(rel, s.heading, lines[i])
    {
    }
  }

  lemma FileHitsMembers(e: Entry, allowed: set<string>, search: string -> bool, y: string)
    ensures y in FileHits(e, allowed, search) <==> Searched(e, allowed) && FromEntry(e, search, y)
  {
    if Searched(e, allowed) && e.extraction.Extracted? {
      var sections := e.extraction.sections;
      var rel := RelPath(e);
      FlatMapMembers(sections, SectionHits(rel, search), y);
      forall j | 0 <= j < |sections|
        ensures y in SectionHits(rel, search)(sections[j]) <==> FromSection(rel, sections[j], search, y)
      {
        SectionHitsMembers(rel, sections[j], search, y);
      }
    }
  }

  /** Every output line comes from an entry the walk searched: it is the
      error line of a file that failed to decode, or a matching line of one
      of a decoded file's sections; and every such line is a hit. */
  lemma HitOrigin(entries: seq<Entry>, allowed: set<string>, search: string -> bool, y: string)
    ensures y in AllHits(entries, allowed, search) <==>
      exists k :: 0 <= k < |entries| && Searched(entries[k], allowed) && FromEntry(entries[k], search, y)
  {
    FlatMapMembers(entries, EntryHits(allowed, search), y);
    forall k | 0 <= k < |entries|
      ensures y in EntryHits(allowed, search)(entries[k]) <==> Searched(entries[k], allowed) && FromEntry(entries[k], search, y)
    {
      FileHitsMembers(entries[k], allowed, search, y);
    }
  }

  /** A file that fails to decode adds its one error line and leaves the
      hits of every other file as they were. */
  lemma FailureIsolated(a: seq<Entry>, e: Entry, b: seq<Entry>, allowed: set<string>, search: string -> bool)
    requires Searched(e, allowed) && e.extraction.ExtractionFailed?
    ensures AllHits(a + [e] + b, allowed, search) ==
      AllHits(a, allowed, search) + [ErrorLine(RelPath(e), e.extraction.message)] + AllHits(b, allowed, search)
  {
    FlatMapAppend(a + [e], b, EntryHits(allowed, search));
    FlatMapStep(a + [e], EntryHits(allowed, search), |a|);
    assert (a + [e])[..|a|] == a;
    assert (a + [e])[..|a| + 1] == a + [e];
  }

  /** A directory, a file of another type or a hidden path is passed over:
      the hits are those of the walk without it. */
  lemma SkippedEntryIgnored(a: seq<Entry>, e: Entry, b: seq<Entry>, allowed: set<string>, search: string -> bool)
    requires !Searched(e, allowed)
    ensures AllHits(a + [e] + b, allowed, search) == AllHits(a + b, allowed, search)
  {
    FlatMapAppend(a + [e], b, EntryHits(allowed, search));
    FlatMapAppend(a, b, EntryHits(allowed, search));
    FlatMapStep(a + [e], EntryHits(allowed, search), |a|);
    assert (a + [e])[..|a|] == a;
    assert (a + [e])[..|a| + 1] == a + [e];
    assert AllHits(a, allowed, search) + [] == AllHits(a, allowed, search);
  }

  /** `file_types` entries are taken with or without their dot, and only
      supported ones count: `"pdf"` and `".pdf"` both select `.pdf`. */
  lemma AllowedMembers(fileTypes: seq<string>, ext: string)
    requires fileTypes != []
    ensures ext in AllowedExtensions(Some(fileTypes)) <==>
      ext in SupportedExtensions && exists k :: 0 <= k < |fileTypes| && Dotted(fileTypes[k]) == ext
  {
  }

  lemma DottedEither(t: string)
    requires !StartsWith(t, ".")
    ensures Dotted(t) == Dotted("." + t) == "." + t
  {
  }

  /** No `file_types` (or an empty list) searches every supported type, and
      the suffix of a file is compared lower-cased. */
  lemma DefaultSearchesAll(e: Entry)
    requires e.isFile && !Hidden(e) && Lower(e.suffix) in SupportedExtensions
    ensures Searched(e, AllowedExtensions(None)) && Searched(e, AllowedExtensions(Some([])))
  {
  }

  /** The `file_types` names are not lower-cased: `["PDF"]` selects nothing. */
  lemma UpperCaseTypeSelectsNothing()
    ensures AllowedExtensions(Some(["PDF"])) == {}
  {
    AllowedMembers(["PDF"], ".PDF");
    forall ext | ext in AllowedExtensions(Some(["PDF"])) ensures false {
      AllowedMembers(["PDF"], ext);
    }
  }

  /** A joined list whose first line contains `c` contains `c`. */
  lemma {:induction false} JoinKeeps(parts: seq<string>, sep: string, c: char)
    requires parts != [] && c in parts[0]
    ensures c in Join(parts, sep)
  {
    if |parts| > 1 {
      var i :| 0 <= i < |parts[0]| && parts[0][i] == c;
      assert Join(parts, sep)[i] == c;
    }
  }

  /** Every output line names its file and a colon. */
  lemma HitsHaveColon(entries: seq<Entry>, allowed: set<string>, search: string -> bool, y: string)
    requires y in AllHits(entries, allowed, search)
    ensures ':' in y
  {
    HitOrigin(entries, allowed, search, y);
    var k :| 0 <= k < |entries| && Searched(entries[k], allowed) && FromEntry(entries[k], search, y);
    EntryLineColon(entries[k], search, y);
  }

  /** An output line of one file starts with its path and a colon. */
  lemma EntryLineColon(e: Entry, search: string -> bool, y: string)
    requires FromEntry(e, search, y)
    ensures |RelPath(e)| < |y| && y[|RelPath(e)|] == ':'
  {
    var rel := RelPath(e);
    match e.extraction
    case ExtractionFailed(message) =>
      PathThenColon(rel, "error:" + message);
    case Extracted(sections) =>
      var j :| 0 <= j < |sections| && FromSection(rel, sections[j], search, y);
      var lines := SplitLines(sections[j].text);
      var i :| 0 <= i < |lines| && search(lines[i]) && y == MatchLine(rel, sections[j].heading, lines[i]);
      PathThenColon(rel + ":" + sections[j].heading, ":" + Strip(lines[i]));
      PathThenColon(rel, sections[j].heading);
  }

  lemma PathThenColon(rel: string, rest: string)
    ensures |rel| < |rel + ":" + rest| && (rel + ":" + rest)[|rel|] == ':'
    ensures forall t :: (rel + ":" + rest + t)[|rel|] == ':'
  {
  }

  /** A search of an existing directory with a valid pattern returns its
      first `max_results` hits in walk order, one per line, and says
      "No matches found." exactly when there are none: when the walk has no
      hits or `max_results` is not positive. */
  lemma GrepOutcome(directory: string, entries: seq<Entry>, search: string -> bool,
                    fileTypes: Option<seq<string>>, maxResults: int)
    ensures var hits := AllHits(entries, AllowedExtensions(fileTypes), search);
      var r := GrepResult(directory, true, entries, Compiled(search), fileTypes, maxResults);
      r.Ok?
      && (r.value == "No matches found." <==> hits == [] || maxResults <= 0)
      && (r.value != "No matches found." ==>
            r.value == Join(Take(hits, maxResults), "\n")
            && 0 < |Take(hits, maxResults)| <= maxResults
            && Take(hits, maxResults) == hits[..|Take(hits, maxResults)|])
  {
    var allowed := AllowedExtensions(fileTypes);
    var hits := AllHits(entries, allowed, search);
    var results := Take(hits, maxResults);
    if results != [] {
      HitsHaveColon(entries, allowed, search, results[0]);
      JoinKeeps(results, "\n", ':');
      assert ':' !in "No matches found.";
    }
  }

  /** Raising `max_results` only adds lines at the end. */
  lemma LargerCapExtends(hits: seq<string>, n: int, m: int)
    requires n <= m
    ensures |Take(hits, n)| <= |Take(hits, m)|
    ensures Take(hits, n) == Take(hits, m)[..|Take(hits, n)|]
  {
  }
}
