/**
  The commission rate of one row: the nested extract_commission_rate of
  process_simple_summary_csv. The regular-expression search for the first
  signed decimal numeral is written out as a left-to-right scan, and the
  scan is proved to return the leftmost, longest match of the pattern.
 */
module Commission {
  import opened Cells

  /** Python's `sub in s`. */
  function Contains(s: string, sub: string): (r: bool)
    ensures sub <= s ==> r
    ensures r ==> |sub| <= |s|
  {
    sub <= s || (|s| > 0 && Contains(s[1..], sub))
  }

  /** sub occurs in s at index i. */
  predicate OccursAt(s: string, sub: string, i: int) {
    0 <= i && i + |sub| <= |s| && s[i..i + |sub|] == sub
  }

  /** An occurrence at index i is found by the search ... */
  lemma {:induction false} OccursContains(s: string, sub: string, i: int)
    requires OccursAt(s, sub, i)
    ensures Contains(s, sub)
    decreases i
  {
    if i == 0 {
      assert s[..|sub|] == sub;
    } else {
      assert s[1..][i - 1..i - 1 + |sub|] == s[i..i + |sub|];
      OccursContains(s[1..], sub, i - 1);
    }
  }

  /** ... and a search that succeeds has found an occurrence. */
  lemma {:induction false} ContainsOccurs(s: string, sub: string)
    requires Contains(s, sub)
    ensures exists i :: OccursAt(s, sub, i)
  {
    if sub <= s {
      assert OccursAt(s, sub, 0);
    } else {
      ContainsOccurs(s[1..], sub);
      var i :| OccursAt(s[1..], sub, i);
      assert s[1..][i..i + |sub|] == s[i + 1..i + 1 + |sub|];
      assert OccursAt(s, sub, i + 1);
    }
  }

  /** `sub in s` holds exactly when sub occurs in s at some index. */
  lemma ContainsIff(s: string, sub: string)
    ensures Contains(s, sub) <==> exists i :: OccursAt(s, sub, i)
  {
    if Contains(s, sub) {
      ContainsOccurs(s, sub);
    }
    forall i | OccursAt(s, sub, i)
      ensures Contains(s, sub)
    {
      OccursContains(s, sub, i);
    }
  }

  // ---------------------------------------------------------------------------
  // The pattern ([-]?\d+(?:\.\d+)?)
  // ---------------------------------------------------------------------------

  /** w matches \d+(?:\.\d+)? in full. */
  predicate IsUnsignedNumeral(w: string) {
    var k := LeadingDigits(w);
    k > 0 && (k == |w| || (w[k] == '.' && k + 1 < |w| && AllDigits(w[k + 1..])))
  }

  /** w matches [-]?\d+(?:\.\d+)? in full. */
  predicate IsNumeral(w: string) {
    if |w| > 0 && w[0] == '-' then IsUnsignedNumeral(w[1..]) else IsUnsignedNumeral(w)
  }

  /** float(m.group(1)) never raises: every match of the pattern is a number. */
  lemma NumeralParses(w: string)
    requires IsNumeral(w)
    ensures ParseDecimal(w).Some?
  {
    if |w| > 0 && w[0] == '-' {
      assert ParseDecimal(w) == match ParseUnsigned(w[1..])
                                case None => None
                                case Some(v) => Some(-v);
    } else {
      assert IsDigit(w[0]);
    }
  }

  /** The end of the run of digits of s that starts at index a. */
  function DigitRunEnd(s: string, a: nat): (e: nat)
    requires a <= |s|
    ensures a <= e <= |s|
    ensures forall j :: a <= j < e ==> IsDigit(s[j])
    ensures e < |s| ==> !IsDigit(s[e])
    decreases |s| - a
  {
    if a < |s| && IsDigit(s[a]) then DigitRunEnd(s, a + 1) else a
  }

  /** LeadingDigits is determined by where the run of digits stops. */
  lemma LeadingDigitsUnique(w: string, k: nat)
    requires k <= |w|
    requires forall j :: 0 <= j < k ==> IsDigit(w[j])
    requires k < |w| ==> !IsDigit(w[k])
    ensures LeadingDigits(w) == k
  {
  }

  /** The digits a slice of s starts with are those of s, cut off at the slice's end. */
  lemma LeadingDigitsOfSlice(s: string, a: nat, b: nat)
    requires a <= b <= |s|
    ensures LeadingDigits(s[a..b]) == (if DigitRunEnd(s, a) <= b then DigitRunEnd(s, a) else b) - a
  {
    var e := DigitRunEnd(s, a);
    var m := if e <= b then e else b;
    LeadingDigitsUnique(s[a..b], m - a);
  }

  /** IsUnsignedNumeral on a slice of s, in terms of the runs of digits of s. */
  lemma UnsignedNumeralSlice(s: string, a: nat, b: nat)
    requires a <= b <= |s|
    ensures IsUnsignedNumeral(s[a..b]) <==>
              var e := DigitRunEnd(s, a);
              (a < b <= e) || (a < e && e + 1 < b && s[e] == '.' && DigitRunEnd(s, e + 1) >= b)
  {
    var w := s[a..b];
    var e := DigitRunEnd(s, a);
    LeadingDigitsOfSlice(s, a, b);
    if a < e < b && e + 1 < b && s[e] == '.' {
      var k := e - a;
      assert w[k] == s[e];
      assert w[k + 1..] == s[e + 1..b];
      if DigitRunEnd(s, e + 1) >= b {
        assert AllDigits(s[e + 1..b]);
      } else {
        var d := DigitRunEnd(s, e + 1);
        assert s[e + 1..b][d - e - 1] == s[d];
      }
    }
  }

  /** A match of the pattern can start at index i of s. */
  predicate NumeralStartsAt(s: string, i: nat) {
    i < |s| && (IsDigit(s[i]) || (s[i] == '-' && i + 1 < |s| && IsDigit(s[i + 1])))
  }

  /** Where a greedy match of the pattern that starts at i ends. */
  function NumeralEnd(s: string, i: nat): (e: nat)
    requires NumeralStartsAt(s, i)
    ensures i < e <= |s|
  {
    var a := if s[i] == '-' then i + 1 else i;
    var d := DigitRunEnd(s, a);
    if d + 1 < |s| && s[d] == '.' && IsDigit(s[d + 1]) then DigitRunEnd(s, d + 1) else d
  }

  /** A match that starts with a minus sign is a minus sign followed by an unsigned match. */
  lemma NumeralSliceSign(s: string, i: nat, b: nat)
    requires i < b <= |s| && s[i] == '-'
    ensures IsNumeral(s[i..b]) <==> IsUnsignedNumeral(s[i + 1..b])
  {
    assert s[i..b][1..] == s[i + 1..b];
  }

  /** The greedy match is a match. */
  lemma NumeralEndMatches(s: string, i: nat)
    requires NumeralStartsAt(s, i)
    ensures IsNumeral(s[i..NumeralEnd(s, i)])
  {
    var a := if s[i] == '-' then i + 1 else i;
    var e := NumeralEnd(s, i);
    UnsignedNumeralSlice(s, a, e);
    if s[i] == '-' {
      NumeralSliceSign(s, i, e);
    }
  }

  /** Every match that starts at i is a prefix of the greedy one, and a match can start only where NumeralStartsAt says. */
  lemma NumeralBounded(s: string, i: nat, b: nat)
    requires i <= b <= |s|
    requires IsNumeral(s[i..b])
    ensures NumeralStartsAt(s, i) && b <= NumeralEnd(s, i)
  {
    assert i < b;
    var a := if s[i] == '-' then i + 1 else i;
    if s[i] == '-' {
      NumeralSliceSign(s, i, b);
    }
    assert IsUnsignedNumeral(s[a..b]);
    UnsignedNumeralSlice(s, a, b);
  }

  /** The scan behind re.search: the first index at or after `from` where a match can start, and the greedy end there. */
  function FindNumeral(s: string, from: nat): (r: Option<(nat, nat)>)
    requires from <= |s|
    ensures r.Some? ==> from <= r.value.0 && NumeralStartsAt(s, r.value.0) && r.value.1 == NumeralEnd(s, r.value.0)
    ensures r.Some? ==> forall k :: from <= k < r.value.0 ==> !NumeralStartsAt(s, k)
    ensures r.None? ==> forall k :: from <= k < |s| ==> !NumeralStartsAt(s, k)
    decreases |s| - from
  {
    if from == |s| then None
    else if NumeralStartsAt(s, from) then Some((from, NumeralEnd(s, from)))
    else FindNumeral(s, from + 1)
  }

  /**
    FindNumeral(s, 0) is what re.search returns for the pattern: None when no
    slice of s matches, and otherwise the match with the leftmost start and,
    at that start, the longest extent.
   */
  lemma LeftmostLongestMatch(s: string)
    ensures FindNumeral(s, 0).None? ==> forall i, j :: 0 <= i <= j <= |s| ==> !IsNumeral(s[i..j])
    ensures FindNumeral(s, 0).Some? ==>
              var (i, j) := FindNumeral(s, 0).value;
              && i < j <= |s|
              && IsNumeral(s[i..j])
              && (forall k, l :: 0 <= k < i && k <= l <= |s| ==> !IsNumeral(s[k..l]))
              && (forall l :: j < l <= |s| ==> !IsNumeral(s[i..l]))
  {
    var r := FindNumeral(s, 0);
    forall i, j | 0 <= i <= j <= |s| && IsNumeral(s[i..j])
      ensures r.Some? && r.value.0 <= i
      ensures r.Some? && r.value.0 == i ==> j <= r.value.1
    {
      NumeralBounded(s, i, j);
    }
    if r.Some? {
      NumeralEndMatches(s, r.value.0);
    }
  }

  /**
    extract_commission_rate: the first numeral of a text that mentions
    "Commission"; 0.0 for any other value, and for such a text without a
    numeral.
   */
  function CommissionRate(c: Cell): (r: real)
    ensures r != 0.0 ==> c.Str? && Contains(c.s, "Commission")
    ensures c.Str? && Contains(c.s, "Commission") && FindNumeral(c.s, 0).None? ==> r == 0.0
    ensures c.Str? && Contains(c.s, "Commission") && FindNumeral(c.s, 0).Some? ==>
              var (i, j) := FindNumeral(c.s, 0).value;
              i < j <= |c.s| && ParseDecimal(c.s[i..j]) == Some(r)
  {
    match c
    case Str(s) =>
      if Contains(s, "Commission") then
        match FindNumeral(s, 0)
        case None => 0.0
        case Some((i, j)) =>
          NumeralEndMatches(s, i);
          NumeralParses(s[i..j]);
          ParseDecimal(s[i..j]).value
      else 0.0
    case _ => 0.0
  }
}
