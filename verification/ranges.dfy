/** `parse_numeric_range`: a comma-separated list of `n` and `a-b` tokens
    read as the set of integers they name. */
module Ranges {
  import opened Wrappers
  import opened Text
  import opened Documents

  /** `set(range(a, b + 1))`: empty when `b < a`. */
  function Interval(a: int, b: int): (r: set<int>)
    ensures forall x :: x in r <==> a <= x <= b
    decreases if b < a then 0 else b - a + 1
  {
    if b < a then {} else Interval(a, b - 1) + {b}
  }

  /** What one token adds to the set, or the literal `int()` rejects first. */
  function TokenRange(token: string): Result<set<int>, Failure> {
    var part := Strip(token);
    if '-' in part then
      var (start, end) := SplitOnce(part, '-');
      match ParseInt(start)
      case None => Err(InvalidLiteral(start))
      case Some(a) =>
        match ParseInt(end)
        case None => Err(InvalidLiteral(end))
        case Some(b) => Ok(Interval(a, b))
    else
      match ParseInt(part)
      case None => Err(InvalidLiteral(part))
      case Some(n) => Ok({n})
  }

  /** The union of what `f` gives for each token; the first token `f`
      rejects decides the error. */
  function UnionOver(tokens: seq<string>, f: string -> Result<set<int>, Failure>): Result<set<int>, Failure>
    decreases |tokens|
  {
    if tokens == [] then Ok({})
    else
      match f(tokens[0])
      case Err(e) => Err(e)
      case Ok(here) =>
        match UnionOver(tokens[1..], f)
        case Err(e) => Err(e)
        case Ok(rest) => Ok(here + rest)
  }

  /** The meaning of a range text. */
  function RangeOf(s: string): Result<set<int>, Failure> {
    UnionOver(Split(s, ','), TokenRange)
  }

  /** `acc` joined to a result that may have failed. */
  function AddTo(acc: set<int>, r: Result<set<int>, Failure>): Result<set<int>, Failure> {
    if r.Ok? then Ok(acc + r.value) else r
  }

  lemma UnionOverStep(tokens: seq<string>, f: string -> Result<set<int>, Failure>, i: nat)
    requires i < |tokens|
    ensures UnionOver(tokens[i..], f) ==
      if f(tokens[i]).Err? then f(tokens[i]) else AddTo(f(tokens[i]).value, UnionOver(tokens[i + 1..], f))
  {
    assert tokens[i..][1..] == tokens[i + 1..];
  }

  lemma AddToTwice(a: set<int>, b: set<int>, r: Result<set<int>, Failure>)
    ensures AddTo(a, AddTo(b, r)) == AddTo(a + b, r)
  {
    if r.Ok? { assert a + (b + r.value) == (a + b) + r.value; }
  }

  /** The body of the loop in `parse_numeric_range`, split out as a method:
      it computes what `TokenRange` specifies, the numbers one token adds or
      the `int()` failure it raises. */
  method ReadToken(token: string) returns (r: Result<set<int>, Failure>)
    ensures r == TokenRange(token)
  {
    var part := Strip(token);
    if '-' in part {
      var (start, end) := SplitOnce(part, '-');
      var a := ParseInt(start);
      if a.None? {
        return Err(InvalidLiteral(start));
      }
      var b := ParseInt(end);
      if b.None? {
        return Err(InvalidLiteral(end));
      }
      r := Ok(Interval(a.value, b.value));
    } else {
      var n := ParseInt(part);
      if n.None? {
        return Err(InvalidLiteral(part));
      }
      r := Ok({n.value});
    }
  }

  /** Reading the tokens from position `i` on, with `nums` gathered so far:
      the token at `i` fails the whole reading or adds its numbers. */
  lemma UnionOverNext(tokens: seq<string>, f: string -> Result<set<int>, Failure>, i: nat, nums: set<int>)
    requires i < |tokens|
    ensures AddTo(nums, UnionOver(tokens[i..], f)) ==
      if f(tokens[i]).Err? then f(tokens[i]) else AddTo(nums + f(tokens[i]).value, UnionOver(tokens[i + 1..], f))
  {
    UnionOverStep(tokens, f, i);
    if f(tokens[i]).Ok? {
      AddToTwice(nums, f(tokens[i]).value, UnionOver(tokens[i + 1..], f));
    }
  }

  /** Nothing read yet is everything still to read; nothing left to read
      adds nothing. */
  lemma UnionOverEnds(tokens: seq<string>, f: string -> Result<set<int>, Failure>, nums: set<int>)
    ensures AddTo({}, UnionOver(tokens[0..], f)) == UnionOver(tokens, f)
    ensures AddTo(nums, UnionOver(tokens[|tokens|..], f)) == Ok(nums)
  {
    assert tokens[0..] == tokens;
    if UnionOver(tokens, f).Ok? {
      assert {} + UnionOver(tokens, f).value == UnionOver(tokens, f).value;
    }
    assert tokens[|tokens|..] == [];
    assert nums + {} == nums;
  }

  /** `parse_numeric_range(s)` */
  method ParseNumericRange(s: string) returns (r: Result<set<int>, Failure>)
    ensures r == RangeOf(s)
  {
    var parts := Split(s, ',');
    var nums: set<int> := {};
    var i := 0;
    UnionOverEnds(parts, TokenRange, nums);
    while i < |parts|
      invariant 0 <= i <= |parts|
      invariant UnionOver(parts, TokenRange) == AddTo(nums, UnionOver(parts[i..], TokenRange))
    {
      UnionOverNext(parts, TokenRange, i, nums);
      var added := ReadToken(parts[i]);
      if added.Err? {
        return added;
      }
      nums := nums + added.value;
      i := i + 1;
    }
    UnionOverEnds(parts, TokenRange, nums);
    r := Ok(nums);
  }

  /** The tokens succeed together or not at all. */
  lemma {:induction false} UnionOverOk(tokens: seq<string>, f: string -> Result<set<int>, Failure>)
    ensures UnionOver(tokens, f).Ok? <==> forall k :: 0 <= k < |tokens| ==> f(tokens[k]).Ok?
    decreases |tokens|
  {
    if tokens != [] {
      UnionOverOk(tokens[1..], f);
      if UnionOver(tokens, f).Ok? {
        forall k | 0 <= k < |tokens| ensures f(tokens[k]).Ok? {
          if k > 0 { assert tokens[1..][k - 1] == tokens[k]; }
        }
      } else if f(tokens[0]).Ok? {
        var k :| 0 <= k < |tokens[1..]| && !f(tokens[1..][k]).Ok?;
        assert tokens[1..][k] == tokens[k + 1];
      }
    }
  }

  /** A number is in the union exactly when some token names it. */
  lemma {:induction false} UnionOverMembers(tokens: seq<string>, f: string -> Result<set<int>, Failure>, x: int)
    requires UnionOver(tokens, f).Ok?
    ensures x in UnionOver(tokens, f).value <==>
      exists k :: 0 <= k < |tokens| && f(tokens[k]).Ok? && x in f(tokens[k]).value
    decreases |tokens|
  {
    if tokens != [] {
      UnionOverMembers(tokens[1..], f, x);
      if x in UnionOver(tokens, f).value && x !in f(tokens[0]).value {
        var k :| 0 <= k < |tokens[1..]| && f(tokens[1..][k]).Ok? && x in f(tokens[1..][k]).value;
        assert tokens[1..][k] == tokens[k + 1];
      }
      if exists k :: 0 <= k < |tokens| && f(tokens[k]).Ok? && x in f(tokens[k]).value {
        var k :| 0 <= k < |tokens| && f(tokens[k]).Ok? && x in f(tokens[k]).value;
        if k > 0 { assert tokens[1..][k - 1] == tokens[k]; }
      }
    }
  }

  /** Reading the tokens of `a` then those of `b` is reading both. */
  lemma {:induction false} UnionOverAppend(a: seq<string>, b: seq<string>, f: string -> Result<set<int>, Failure>)
    ensures UnionOver(a + b, f).Ok? <==> UnionOver(a, f).Ok? && UnionOver(b, f).Ok?
    ensures UnionOver(a + b, f).Ok? ==> UnionOver(a + b, f).value == UnionOver(a, f).value + UnionOver(b, f).value
    decreases |a|
  {
    if a != [] {
      assert (a + b)[1..] == a[1..] + b;
      UnionOverAppend(a[1..], b, f);
    } else {
      assert a + b == b;
    }
  }

  /** Token order does not matter: `s,t` and `t,s` name the same set, and
      one fails exactly when the other does. */
  lemma RangeOrderIndependent(s: string, t: string)
    ensures RangeOf(s + "," + t).Ok? <==> RangeOf(t + "," + s).Ok?
    ensures RangeOf(s + "," + t).Ok? <==> RangeOf(s).Ok? && RangeOf(t).Ok?
    ensures RangeOf(s + "," + t).Ok? ==>
      RangeOf(s + "," + t).value == RangeOf(s).value + RangeOf(t).value == RangeOf(t + "," + s).value
  {
    SplitAppend(s, t, ',');
    SplitAppend(t, s, ',');
    UnionOverAppend(Split(s, ','), Split(t, ','), TokenRange);
    UnionOverAppend(Split(t, ','), Split(s, ','), TokenRange);
  }

  /** `a-b` names `{a..b}` (nothing when `b < a`) and a bare `n` names `{n}`. */
  lemma TokenOfNumbers(a: nat, b: nat)
    ensures TokenRange(NatToString(a) + "-" + NatToString(b)) == Ok(Interval(a, b))
    ensures TokenRange(NatToString(a)) == Ok({a})
    ensures b < a ==> TokenRange(NatToString(a) + "-" + NatToString(b)) == Ok({})
  {
    var sa, sb := NatToString(a), NatToString(b);
    var tok := sa + "-" + sb;
    assert '-' !in sa;
    StripUnchanged(tok);
    StripUnchanged(sa);
    SplitOnceAt(sa, sb, '-');
    ParseIntOfNatToString(a);
    ParseIntOfNatToString(b);
  }

  /** A token without a dash is read by `int()` alone: it is accepted
      exactly when `int()` accepts it, and names that one number; otherwise
      the error names the stripped token. */
  lemma SingleNumberToken(token: string)
    requires '-' !in Strip(token)
    ensures TokenRange(token).Ok? <==> ParseInt(token).Some?
    ensures TokenRange(token).Ok? ==> TokenRange(token).value == {ParseInt(token).value}
    ensures TokenRange(token).Err? ==> TokenRange(token).error == InvalidLiteral(Strip(token))
  {
    var part := Strip(token);
    StripIdempotent(token);
    assert ParseInt(part) == ParseInt(token);
    assert TokenRange(token) == if ParseInt(part).None? then Err(InvalidLiteral(part)) else Ok({ParseInt(part).value});
  }

  lemma UnionOverSingle(token: string, f: string -> Result<set<int>, Failure>)
    ensures UnionOver([token], f) == f(token)
  {
    assert [token][1..] == [];
    if f(token).Ok? {
      assert f(token).value + {} == f(token).value;
    }
  }

  /** A text without a comma is a single token. */
  lemma SingleTokenRange(token: string)
    requires ',' !in token
    ensures RangeOf(token) == TokenRange(token)
  {
    SplitNoSeparator(token, ',');
    UnionOverSingle(token, TokenRange);
  }

  lemma SpanWithoutComma(a: nat, b: nat)
    ensures ',' !in NatToString(a) + "-" + NatToString(b)
  {
  }

  /** The text `"a-b"` names `{a..b}`. */
  lemma RangeOfSpan(a: nat, b: nat)
    ensures RangeOf(NatToString(a) + "-" + NatToString(b)) == Ok(Interval(a, b))
  {
    TokenOfNumbers(a, b);
    SpanWithoutComma(a, b);
    SingleTokenRange(NatToString(a) + "-" + NatToString(b));
  }

  /** The text `"n"` names `{n}`. */
  lemma RangeOfNumber(n: nat)
    ensures RangeOf(NatToString(n)) == Ok({n})
  {
    TokenOfNumbers(n, n);
    SingleTokenRange(NatToString(n));
  }

  lemma Regroup(w: string, x: string, y: string, z: string)
    ensures w + x + y + z == (w + x) + y + z
    ensures w + x + y + z == w + (x + y + z)
  {
  }

  /** `"a-b,n"` and `"n,a-b"` both name `{a..b}` together with `n`. */
  lemma RangeAndNumber(a: nat, b: nat, n: nat)
    ensures RangeOf(NatToString(a) + "-" + NatToString(b) + "," + NatToString(n)) == Ok(Interval(a, b) + {n})
    ensures RangeOf(NatToString(n) + "," + NatToString(a) + "-" + NatToString(b)) == Ok(Interval(a, b) + {n})
  {
    var span, single := NatToString(a) + "-" + NatToString(b), NatToString(n);
    RangeOfSpan(a, b);
    RangeOfNumber(n);
    RangeOrderIndependent(span, single);
    Regroup(NatToString(a) + "-", NatToString(b), ",", NatToString(n));
    Regroup(NatToString(n) + ",", NatToString(a), "-", NatToString(b));
  }
}
