/** Walking a document's sections in order, as the comprehensions and loops
    of the section filters do. */
module SectionLists {
  import opened Wrappers
  import opened Documents

  /** What `f` makes of each element, concatenated in order. */
  function FlatMap<T, U>(xs: seq<T>, f: T -> seq<U>): seq<U>
    decreases |xs|
  {
    if xs == [] then []
    else FlatMap(xs[..|xs| - 1], f) + f(xs[|xs| - 1])
  }

  /** One more element appends what `f` makes of it. */
  lemma FlatMapStep<T, U>(xs: seq<T>, f: T -> seq<U>, i: nat)
    requires i < |xs|
    ensures FlatMap(xs[..i + 1], f) == FlatMap(xs[..i], f) + f(xs[i])
  {
    assert xs[..i + 1][..i] == xs[..i];
  }

  /** Elements are handled one by one: a concatenation maps to the
      concatenation of the parts. */
  lemma {:induction false} FlatMapAppend<T, U>(a: seq<T>, b: seq<T>, f: T -> seq<U>)
    ensures FlatMap(a + b, f) == FlatMap(a, f) + FlatMap(b, f)
    decreases |b|
  {
    if b == [] {
      assert a + b == a;
    } else {
      var init := b[..|b| - 1];
      FlatMapAppend(a, init, f);
      var ab := a + b;
      assert ab[..|ab| - 1] == a + init;
      assert FlatMap(ab, f) == FlatMap(a + init, f) + f(b[|b| - 1]);
    }
  }

  /** An element `f` gives is in the result exactly when it comes from one
      of the inputs. */
  lemma {:induction false} FlatMapMembers<T, U>(xs: seq<T>, f: T -> seq<U>, y: U)
    ensures y in FlatMap(xs, f) <==> exists k :: 0 <= k < |xs| && y in f(xs[k])
    decreases |xs|
  {
    if xs != [] {
      var init := xs[..|xs| - 1];
      FlatMapMembers(init, f, y);
      if exists k :: 0 <= k < |xs| && y in f(xs[k]) {
        var k :| 0 <= k < |xs| && y in f(xs[k]);
        if k < |init| { assert init[k] == xs[k]; }
      }
      if exists k :: 0 <= k < |init| && y in f(init[k]) {
        var k :| 0 <= k < |init| && y in f(init[k]);
        assert init[k] == xs[k];
      }
    }
  }

  /** The sections that satisfy `keep`, in document order. */
  function Where(sections: seq<Section>, keep: Section -> bool): (r: seq<Section>)
    ensures |r| <= |sections|
    decreases |sections|
  {
    if sections == [] then []
    else
      var last := sections[|sections| - 1];
      Where(sections[..|sections| - 1], keep) + (if keep(last) then [last] else [])
  }

  /** A single section is kept or dropped by `keep` alone. */
  lemma WhereSingle(s: Section, keep: Section -> bool)
    ensures Where([s], keep) == if keep(s) then [s] else []
  {
    assert [s][..0] == [];
  }

  /** A section is kept exactly when it is one of the input and satisfies `keep`. */
  lemma {:induction false} WhereMembers(sections: seq<Section>, keep: Section -> bool, s: Section)
    ensures s in Where(sections, keep) <==> s in sections && keep(s)
    decreases |sections|
  {
    if sections != [] {
      var init := sections[..|sections| - 1];
      WhereMembers(init, keep, s);
      assert sections == init + [sections[|sections| - 1]];
    }
  }

  /** Filtering keeps the order: a concatenation filters to the
      concatenation of the filtered parts. */
  lemma {:induction false} WhereAppend(a: seq<Section>, b: seq<Section>, keep: Section -> bool)
    ensures Where(a + b, keep) == Where(a, keep) + Where(b, keep)
    decreases |b|
  {
    if b == [] {
      assert a + b == a;
    } else {
      var ab := a + b;
      assert ab[..|ab| - 1] == a + b[..|b| - 1];
      assert ab[|ab| - 1] == b[|b| - 1];
      WhereAppend(a, b[..|b| - 1], keep);
    }
  }

  /** What `f` makes of each section, given its 1-based position, concatenated
      in document order; the first section `f` fails on stops the walk. */
  function TryFlatMap(sections: seq<Section>, f: (nat, Section) -> Result<seq<Section>, Failure>): Result<seq<Section>, Failure>
    decreases |sections|
  {
    if sections == [] then Ok([])
    else
      match TryFlatMap(sections[..|sections| - 1], f)
      case Err(e) => Err(e)
      case Ok(done) =>
        match f(|sections|, sections[|sections| - 1])
        case Err(e) => Err(e)
        case Ok(more) => Ok(done + more)
  }

  /** One more section: its failure, or what it adds. */
  lemma TryFlatMapStep(sections: seq<Section>, f: (nat, Section) -> Result<seq<Section>, Failure>, i: nat, done: seq<Section>)
    requires i < |sections| && TryFlatMap(sections[..i], f) == Ok(done)
    ensures TryFlatMap(sections[..i + 1], f) ==
      if f(i + 1, sections[i]).Err? then Err(f(i + 1, sections[i]).error) else Ok(done + f(i + 1, sections[i]).value)
  {
    assert sections[..i + 1][..i] == sections[..i];
  }

  /** Once the walk fails on a prefix, that failure is the outcome. */
  lemma {:induction false} TryFlatMapStops(sections: seq<Section>, f: (nat, Section) -> Result<seq<Section>, Failure>, i: nat)
    requires i <= |sections| && TryFlatMap(sections[..i], f).Err?
    ensures TryFlatMap(sections, f) == TryFlatMap(sections[..i], f)
    decreases |sections| - i
  {
    if i < |sections| {
      assert sections[..i + 1][..i] == sections[..i];
      TryFlatMapStops(sections, f, i + 1);
    } else {
      assert sections[..i] == sections;
    }
  }

  /** The walk fails exactly when `f` fails on some section. */
  lemma {:induction false} TryFlatMapFails(sections: seq<Section>, f: (nat, Section) -> Result<seq<Section>, Failure>)
    ensures TryFlatMap(sections, f).Err? <==> exists k :: 0 <= k < |sections| && f(k + 1, sections[k]).Err?
    decreases |sections|
  {
    if sections != [] {
      var init := sections[..|sections| - 1];
      TryFlatMapFails(init, f);
      if exists k :: 0 <= k < |init| && f(k + 1, init[k]).Err? {
        var k :| 0 <= k < |init| && f(k + 1, init[k]).Err?;
        assert sections[k] == init[k];
      }
      if exists k :: 0 <= k < |sections| && f(k + 1, sections[k]).Err? {
        var k :| 0 <= k < |sections| && f(k + 1, sections[k]).Err?;
        if k < |init| {
          assert init[k] == sections[k];
        }
      }
    }
  }

  /** When the walk succeeds, a section is in its output exactly when `f`
      produced it for one of the input sections. */
  lemma {:induction false} TryFlatMapMembers(sections: seq<Section>, f: (nat, Section) -> Result<seq<Section>, Failure>, x: Section)
    requires TryFlatMap(sections, f).Ok?
    ensures x in TryFlatMap(sections, f).value <==>
      exists k :: 0 <= k < |sections| && f(k + 1, sections[k]).Ok? && x in f(k + 1, sections[k]).value
    decreases |sections|
  {
    if sections != [] {
      var init := sections[..|sections| - 1];
      TryFlatMapMembers(init, f, x);
      if exists k :: 0 <= k < |init| && f(k + 1, init[k]).Ok? && x in f(k + 1, init[k]).value {
        var k :| 0 <= k < |init| && f(k + 1, init[k]).Ok? && x in f(k + 1, init[k]).value;
        assert sections[k] == init[k];
      }
      if exists k :: 0 <= k < |sections| && f(k + 1, sections[k]).Ok? && x in f(k + 1, sections[k]).value {
        var k :| 0 <= k < |sections| && f(k + 1, sections[k]).Ok? && x in f(k + 1, sections[k]).value;
        if k < |init| {
          assert init[k] == sections[k];
        }
      }
    }
  }
}
