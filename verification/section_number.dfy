/** `extract_section_number`: the number a section label ends with, as the
    regular expression `.*?(\d+)$` anchored at the start of the label finds it.
    A label is called `heading` here, `label` being a Dafny keyword. */
module SectionNumbers {
  import opened Wrappers
  import opened Text

  /** The length of the run of decimal digits `s` ends with. */
  function TrailingDigits(s: string): (n: nat)
    ensures n <= |s| && AllDigits(s[|s| - n..])
    ensures n < |s| ==> !IsDigit(s[|s| - n - 1])
    decreases |s|
  {
    if s != [] && IsDigit(s[|s| - 1]) then
      var m := TrailingDigits(s[..|s| - 1]);
      TrailingStep(s, m);
      m + 1
    else 0
  }

  /** One more digit at the end extends the run. */
  lemma TrailingStep(s: string, m: nat)
    requires s != [] && IsDigit(s[|s| - 1])
    requires m <= |s| - 1 && AllDigits(s[..|s| - 1][|s| - 1 - m..])
    ensures AllDigits(s[|s| - m - 1..])
    ensures m + 1 < |s| ==> s[|s| - m - 2] == s[..|s| - 1][|s| - 1 - m - 1]
  {
    var init := s[..|s| - 1];
    assert s[|s| - m - 1..] == init[|init| - m..] + [s[|s| - 1]];
  }

  /** A run of digits that cannot be extended to the left is the trailing run. */
  lemma {:induction false} TrailingDigitsUnique(s: string, k: nat)
    requires k <= |s| && AllDigits(s[|s| - k..])
    requires k < |s| ==> !IsDigit(s[|s| - k - 1])
    ensures TrailingDigits(s) == k
    decreases |s|
  {
    if k > 0 {
      var init := s[..|s| - 1];
      assert s[|s| - 1] == s[|s| - k..][k - 1];
      assert init[|init| - (k - 1)..] == s[|s| - k..|s| - 1];
      if k - 1 < |init| {
        assert init[|init| - (k - 1) - 1] == s[|s| - k - 1];
      }
      TrailingDigitsUnique(init, k - 1);
    }
  }

  /** `heading` without the one line break `$` may stand before. */
  function Body(heading: string): (b: string)
    ensures b == heading || (heading == b + "\n")
    ensures b == heading[..|b|]
    ensures heading != [] && heading[|heading| - 1] == '\n' ==> heading == b + "\n"
    ensures (heading == [] || heading[|heading| - 1] != '\n') ==> b == heading
  {
    if heading != [] && heading[|heading| - 1] == '\n' then heading[..|heading| - 1] else heading
  }

  /** The pattern `.*?(\d+)$` matches `heading` with the group spanning
      `heading[p..q]`: `.*?` consumed `heading[..p]`, in which there is no line
      break because `.` does not match one, the group is a non-empty run of
      digits, and `$` holds at `q`, which is either the end of the label or
      the position of a final line break. */
  predicate MatchesAt(heading: string, p: int, q: int) {
    0 <= p < q <= |heading| && '\n' !in heading[..p] && AllDigits(heading[p..q])
    && (q == |heading| || (q == |heading| - 1 && heading[q] == '\n'))
  }

  /** `extract_section_number(heading)`: a number is found only in a label
      that, less one final line break, is a single line ending in a digit. */
  function SectionNumber(heading: string): (r: Option<nat>)
    ensures r.Some? ==> var b := Body(heading); b != [] && IsDigit(b[|b| - 1]) && '\n' !in b
  {
    var body := Body(heading);
    var n := TrailingDigits(body);
    if n == 0 || '\n' in body[..|body| - n] then None
    else
      var digits := body[|body| - n..];
      assert body == body[..|body| - n] + digits;
      assert body[|body| - 1] == digits[n - 1];
      assert '\n' !in digits by {
        forall i | 0 <= i < |digits| ensures digits[i] != '\n' {
          assert IsDigit(digits[i]);
        }
      }
      Some(DigitsValue(digits))
  }

  /** Every match ends where the body ends and starts inside its trailing
      run of digits, and then a number is found. */
  lemma MatchShape(heading: string, p: int, q: int)
    requires MatchesAt(heading, p, q)
    ensures q == |Body(heading)|
    ensures |Body(heading)| - TrailingDigits(Body(heading)) <= p
    ensures SectionNumber(heading).Some?
  {
    var body := Body(heading);
    assert IsDigit(heading[q - 1]) by { assert heading[q - 1] == heading[p..q][q - 1 - p]; }
    assert q == |body|;
    var n := TrailingDigits(body);
    assert body[..|body| - n] == heading[..p][..|body| - n];
  }

  /** When a number is found, the group spans the body's trailing digits. */
  lemma MatchOfNumber(heading: string)
    requires SectionNumber(heading).Some?
    ensures MatchesAt(heading, |Body(heading)| - TrailingDigits(Body(heading)), |Body(heading)|)
    ensures SectionNumber(heading).value ==
      DigitsValue(heading[|Body(heading)| - TrailingDigits(Body(heading))..|Body(heading)|])
  {
    var body := Body(heading);
    var p, q := |body| - TrailingDigits(body), |body|;
    assert heading[..p] == body[..p];
    assert heading[p..q] == body[p..];
  }

  /** The lazy `.*?` makes the engine report the match that starts first:
      `SectionNumber` finds a number exactly when the pattern matches, and
      then it is the number the earliest match captures. */
  lemma SectionNumberIsFirstMatch(heading: string)
    ensures SectionNumber(heading).None? <==> forall p, q :: !MatchesAt(heading, p, q)
    ensures SectionNumber(heading).Some? ==>
      exists p, q :: MatchesAt(heading, p, q) && SectionNumber(heading).value == DigitsValue(heading[p..q])
        && forall p2, q2 :: MatchesAt(heading, p2, q2) ==> p <= p2
  {
    var body := Body(heading);
    var p, q := |body| - TrailingDigits(body), |body|;
    forall p2, q2 | MatchesAt(heading, p2, q2) ensures SectionNumber(heading).Some? && p <= p2 {
      MatchShape(heading, p2, q2);
    }
    if SectionNumber(heading).Some? {
      MatchOfNumber(heading);
    }
  }

  /** A label that ends in a maximal run of `k` digits, with no line break
      before it, gives the number the run spells. */
  lemma NumberAtEnd(heading: string, k: nat)
    requires 0 < k <= |heading| && AllDigits(heading[|heading| - k..])
    requires k < |heading| ==> !IsDigit(heading[|heading| - k - 1])
    requires '\n' !in heading[..|heading| - k]
    ensures SectionNumber(heading) == Some(DigitsValue(heading[|heading| - k..]))
  {
    assert Body(heading) == heading by {
      assert IsDigit(heading[|heading| - 1]) by {
        assert heading[|heading| - 1] == heading[|heading| - k..][k - 1];
      }
    }
    assert TrailingDigits(heading) == k by {
      TrailingDigitsUnique(heading, k);
    }
    NumberOfRun(heading, k);
  }

  lemma NumberOfRun(heading: string, k: nat)
    requires Body(heading) == heading && 0 < k == TrailingDigits(heading)
    requires '\n' !in heading[..|heading| - k]
    ensures SectionNumber(heading) == Some(DigitsValue(heading[|heading| - k..]))
  {
    var body := Body(heading);
    var n := TrailingDigits(body);
    assert n == k && body[..|body| - n] == heading[..|heading| - k];
  }

  /** On a one-line label the number is found exactly when the label ends
      in a digit, and it is the value of the whole trailing run of digits,
      so `page 10` gives 10 and not 0. */
  lemma SingleLineNumber(heading: string)
    requires '\n' !in heading
    ensures SectionNumber(heading).None? <==> heading == [] || !IsDigit(heading[|heading| - 1])
    ensures SectionNumber(heading).Some? ==>
      SectionNumber(heading).value == DigitsValue(heading[|heading| - TrailingDigits(heading)..])
  {
    assert Body(heading) == heading;
    var n := TrailingDigits(heading);
    if heading != [] && IsDigit(heading[|heading| - 1]) {
      assert n > 0;
      assert '\n' !in heading[..|heading| - n] by {
        assert forall c :: c in heading[..|heading| - n] ==> c in heading;
      }
      assert SectionNumber(heading) == Some(DigitsValue(heading[|heading| - n..]));
    } else {
      assert n == 0;
      assert SectionNumber(heading) == None;
    }
  }

  /** A label such as `page 12`, `slide 3` or `chapter 7` gives its number
      back: a prefix without line breaks that does not end in a digit,
      followed by `str(n)`. */
  lemma SectionNumberOfLabel(prefix: string, n: nat)
    requires '\n' !in prefix
    requires prefix == [] || !IsDigit(prefix[|prefix| - 1])
    ensures SectionNumber(prefix + NatToString(n)) == Some(n)
  {
    var s := NatToString(n);
    var heading := prefix + s;
    assert heading[|heading| - |s|..] == s;
    assert heading[..|heading| - |s|] == prefix;
    if prefix != [] {
      assert heading[|heading| - |s| - 1] == prefix[|prefix| - 1];
    }
    NumberAtEnd(heading, |s|);
    NatToStringRoundTrip(n);
  }
}
