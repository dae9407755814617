/**
  The stdout `data` handler of `runRsyncCommand`: the chunk is matched
  against /(\d+)%/ and, on a match, the captured digits are read in base 10
  and reported. The value is not clamped and nothing is carried between
  chunks.
*/
module Progress {
  import opened Wrappers
  import opened Text

  /** End of the run of digits that starts at `i` (`i` itself when `s[i]` is
      not a digit). */
  function RunEnd(s: string, i: nat): (k: nat)
    requires i <= |s|
    ensures i <= k <= |s|
    ensures forall m :: i <= m < k ==> IsDigit(s[m])
    ensures k < |s| ==> !IsDigit(s[k])
    decreases |s| - i
  {
    if i < |s| && IsDigit(s[i]) then RunEnd(s, i + 1) else i
  }

  /** The leftmost match of /(\d+)%/ at or after position `i`, scanning one
      digit run (or one other character) at a time. */
  function ExtractFrom(s: string, i: nat): Option<nat>
    requires i <= |s|
    decreases |s| - i
  {
    if i == |s| then None
    else
      var k := RunEnd(s, i);
      if i < k < |s| && s[k] == '%' then
        assert AllDigits(s[i..k]);
        Some(DigitsValue(s[i..k]))
      else ExtractFrom(s, if i < k then k else i + 1)
  }

  /** `data.match(/(\d+)%/)` followed by `parseInt(match[1], 10)`. */
  function ExtractPercent(chunk: string): Option<nat> {
    ExtractFrom(chunk, 0)
  }

  // ---------------------------------------------------------------------
  // Reference semantics of the regular expression

  /** A percent sign with a digit right before it. */
  predicate MarkerAt(s: string, q: int) {
    0 < q < |s| && s[q] == '%' && IsDigit(s[q - 1])
  }

  /** `s[i..j]` is a maximal run of digits and `s[j]` is '%'. */
  predicate IsMatch(s: string, i: int, j: int) {
    && 0 <= i < j < |s|
    && (forall m :: i <= m < j ==> IsDigit(s[m]))
    && s[j] == '%'
    && (i == 0 || !IsDigit(s[i - 1]))
  }

  /** The match the regular expression reports: the digit run ending at the
      first percent sign that has a digit right before it. */
  predicate IsFirstMatch(s: string, i: int, j: int) {
    IsMatch(s, i, j) && forall q :: 0 < q < j ==> !MarkerAt(s, q)
  }

  /** Where the scan may resume: no digit run is entered in its middle. */
  predicate AtRunBoundary(s: string, i: nat) {
    i == 0 || i >= |s| || !IsDigit(s[i - 1]) || !IsDigit(s[i])
  }

  lemma RunEndAtMatch(s: string, i: int, j: int)
    requires IsMatch(s, i, j)
    ensures RunEnd(s, i) == j
  {
  }

  /** The scan from `i` finds nothing exactly when there is no marker after `i`. */
  lemma {:induction false} ExtractFromNone(s: string, i: nat)
    requires i <= |s|
    ensures ExtractFrom(s, i).None? <==> forall q :: i < q < |s| ==> !MarkerAt(s, q)
    decreases |s| - i
  {
    if i < |s| {
      var k := RunEnd(s, i);
      if i < k < |s| && s[k] == '%' {
        assert MarkerAt(s, k);
      } else {
        var next := if i < k then k else i + 1;
        ExtractFromNone(s, next);
        forall q | i < q <= next && q < |s|
          ensures !MarkerAt(s, q)
        {
          if q < k {
            assert IsDigit(s[q]);
          }
        }
      }
    }
  }

  /** What the scan from a run boundary finds is the first match after it. */
  lemma {:induction false} ExtractFromSound(s: string, i: nat) returns (a: nat, j: nat)
    requires i <= |s| && AtRunBoundary(s, i)
    requires ExtractFrom(s, i).Some?
    ensures i <= a && IsMatch(s, a, j)
    ensures forall q :: i < q < j ==> !MarkerAt(s, q)
    ensures ExtractFrom(s, i) == Some(DigitsValue(s[a..j]))
    decreases |s| - i
  {
    var k := RunEnd(s, i);
    if i < k < |s| && s[k] == '%' {
      a, j := i, k;
      forall q | i < q < j
        ensures !MarkerAt(s, q)
      {
        assert IsDigit(s[q]);
      }
    } else {
      var next := if i < k then k else i + 1;
      a, j := ExtractFromSound(s, next);
      forall q | i < q <= next && q < |s|
        ensures !MarkerAt(s, q)
      {
        if q < k {
          assert IsDigit(s[q]);
        }
      }
    }
  }

  /** Every first match after `i` is what the scan from `i` finds. */
  lemma {:induction false} ExtractFromComplete(s: string, i: nat, a: nat, j: nat)
    requires i <= a && IsMatch(s, a, j)
    requires forall q :: i < q < j ==> !MarkerAt(s, q)
    ensures ExtractFrom(s, i) == Some(DigitsValue(s[a..j]))
    decreases |s| - i
  {
    var k := RunEnd(s, i);
    if i == a {
      RunEndAtMatch(s, a, j);
    } else {
      if i < k {
        assert IsDigit(s[a]) && !IsDigit(s[a - 1]);
        assert k <= a < j;
        assert !MarkerAt(s, k);
      }
      var next := if i < k then k else i + 1;
      ExtractFromComplete(s, next, a, j);
    }
  }

  /** The handler reports nothing exactly when no digit is immediately
      followed by '%'. */
  lemma ExtractPercentNone(chunk: string)
    ensures ExtractPercent(chunk).None? <==> forall q :: 0 < q < |chunk| ==> !MarkerAt(chunk, q)
  {
    ExtractFromNone(chunk, 0);
  }

  /** A report is the value of the first match (soundness). */
  lemma ExtractPercentSound(chunk: string) returns (a: nat, j: nat)
    requires ExtractPercent(chunk).Some?
    ensures IsFirstMatch(chunk, a, j)
    ensures ExtractPercent(chunk) == Some(DigitsValue(chunk[a..j]))
  {
    a, j := ExtractFromSound(chunk, 0);
  }

  /** The first match is always reported (completeness); with soundness this
      makes the report unique. */
  lemma ExtractPercentComplete(chunk: string, a: nat, j: nat)
    requires IsFirstMatch(chunk, a, j)
    ensures ExtractPercent(chunk) == Some(DigitsValue(chunk[a..j]))
  {
    ExtractFromComplete(chunk, 0, a, j);
  }

  /** Values are not clamped: "250%" reports 250. */
  lemma ExtractPercentUnclamped()
    ensures ExtractPercent("250%") == Some(250)
  {
    var s := "250%";
    assert s[0..3] == "250";
    assert DigitsValue("250") == 250 by {
      assert "250"[..2] == "25";
      assert "25"[..1] == "2";
    }
    ExtractPercentComplete(s, 0, 3);
  }

  /** Only the first marker counts, and a '%' after a non-digit is skipped. */
  lemma ExtractPercentFirstMarker()
    ensures ExtractPercent("a%12%3%") == Some(12)
  {
    var s := "a%12%3%";
    assert s[2..4] == "12";
    assert DigitsValue("12") == 12 by {
      assert "12"[..1] == "1";
    }
    ExtractPercentComplete(s, 2, 4);
  }

  /** A '%' separated from the digits by a space is not a marker. */
  lemma ExtractPercentSpaced()
    ensures ExtractPercent("x% 7 %") == None
  {
    ExtractPercentNone("x% 7 %");
  }
}
