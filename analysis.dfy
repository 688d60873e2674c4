/** Measurement post-processing of the amplitude-estimation benchmark: folding
    raw counts onto the counting qubits (`analyze_and_print_result`) and
    re-keying them by estimated amplitude (`bitstring_to_a`). The amplitude
    estimate `round(sin(pi * k / 2^m)^2, precision)` is floating point and is
    kept as an uninterpreted function `amp(k, m)` into an arbitrary key type. */
module Analysis {
  import opened Common

  /** Python's `s[:m]` for `m >= 0`. */
  function Truncate(s: string, m: nat): (r: string)
    ensures |r| == if m <= |s| then m else |s|
    ensures r == s[..|r|]
  {
    if m <= |s| then s[..m] else s
  }

  /** `measurement_r[:num_counting_qubits][::-1]`. */
  function FoldKey(s: string, m: nat): string
  {
    Reverse(Truncate(s, m))
  }

  // ---------------------------------------------------------------------
  // Folding raw counts onto the counting qubits.

  /** The folded counts of `analyze_and_print_result`. */
  function Fold(raw: Dict<string, int>, m: nat): Dict<string, int>
  {
    if raw == [] then []
    else
      var last := raw[|raw| - 1];
      AddTo(Fold(raw[..|raw| - 1], m), FoldKey(last.0, m), last.1)
  }

  /** The loop of `analyze_and_print_result` that builds `counts_str`. */
  method FoldCounts(raw: Dict<string, int>, m: nat) returns (counts: Dict<string, int>)
    ensures counts == Fold(raw, m)
  {
    counts := [];
    for i := 0 to |raw|
      invariant counts == Fold(raw[..i], m)
    {
      var measurement := Reverse(Truncate(raw[i].0, m));
      assert raw[..i + 1][..i] == raw[..i];
      if measurement in Keys(counts) {
        counts := AddTo(counts, measurement, raw[i].1);
      } else {
        AddToFresh(counts, measurement, raw[i].1);
        counts := counts + [(measurement, raw[i].1)];
      }
    }
    assert raw[..|raw|] == raw;
  }

  /** Sum of the raw counts whose key folds to `k`. */
  function SumFoldingTo(raw: Dict<string, int>, m: nat, k: string): int
  {
    if raw == [] then 0
    else
      var last := raw[|raw| - 1];
      SumFoldingTo(raw[..|raw| - 1], m, k) + (if FoldKey(last.0, m) == k then last.1 else 0)
  }

  /** Folding keeps every shot: the totals agree. */
  lemma {:induction false} FoldTotal(raw: Dict<string, int>, m: nat)
    ensures Total(Fold(raw, m)) == Total(raw)
  {
    if raw != [] {
      var init, last := raw[..|raw| - 1], raw[|raw| - 1];
      FoldTotal(init, m);
      AddToTotal(Fold(init, m), FoldKey(last.0, m), last.1);
      assert raw == init + [last];
      TotalAppend(init, [last]);
    }
  }

  /** Folded keys are distinct, are exactly the folded raw keys, and each holds
      the sum of the counts of the raw keys that fold onto it. */
  lemma FoldContents(raw: Dict<string, int>, m: nat)
    ensures DistinctKeys(Fold(raw, m))
    ensures forall k :: k in Keys(Fold(raw, m)) <==> exists i :: 0 <= i < |raw| && FoldKey(raw[i].0, m) == k
    ensures forall k :: Lookup(Fold(raw, m), k) == SumFoldingTo(raw, m, k)
  {
    FoldKeysFrom(raw, m);
    forall k | exists i :: 0 <= i < |raw| && FoldKey(raw[i].0, m) == k
      ensures k in Keys(Fold(raw, m))
    {
      var i :| 0 <= i < |raw| && FoldKey(raw[i].0, m) == k;
      FoldHasKey(raw, m, i);
    }
    forall k ensures Lookup(Fold(raw, m), k) == SumFoldingTo(raw, m, k) {
      FoldLookup(raw, m, k);
    }
  }

  lemma {:induction false} FoldKeysFrom(raw: Dict<string, int>, m: nat)
    ensures DistinctKeys(Fold(raw, m))
    ensures forall k :: k in Keys(Fold(raw, m)) ==> exists i :: 0 <= i < |raw| && FoldKey(raw[i].0, m) == k
  {
    if raw != [] {
      var init, last := raw[..|raw| - 1], raw[|raw| - 1];
      FoldKeysFrom(init, m);
      AddToKeys(Fold(init, m), FoldKey(last.0, m), last.1);
      forall k | k in Keys(Fold(raw, m))
        ensures exists i :: 0 <= i < |raw| && FoldKey(raw[i].0, m) == k
      {
        if k != FoldKey(last.0, m) {
          var i :| 0 <= i < |init| && FoldKey(init[i].0, m) == k;
          assert raw[i] == init[i];
        }
      }
    }
  }

  lemma {:induction false} FoldHasKey(raw: Dict<string, int>, m: nat, i: nat)
    requires i < |raw|
    ensures FoldKey(raw[i].0, m) in Keys(Fold(raw, m))
  {
    var init, last := raw[..|raw| - 1], raw[|raw| - 1];
    FoldKeysFrom(init, m);
    AddToKeys(Fold(init, m), FoldKey(last.0, m), last.1);
    if i < |init| {
      assert raw[i] == init[i];
      FoldHasKey(init, m, i);
    }
  }

  lemma {:induction false} FoldLookup(raw: Dict<string, int>, m: nat, k: string)
    ensures Lookup(Fold(raw, m), k) == SumFoldingTo(raw, m, k)
  {
    if raw != [] {
      var init, last := raw[..|raw| - 1], raw[|raw| - 1];
      FoldLookup(init, m, k);
      FoldKeysFrom(init, m);
      LookupAddTo(Fold(init, m), FoldKey(last.0, m), last.1, k);
    }
  }

  /** Every folded key is the reversal of the first `m` characters of a raw key. */
  lemma FoldKeyShape(s: string, m: nat)
    requires m <= |s|
    ensures |FoldKey(s, m)| == m
    ensures forall i :: 0 <= i < m ==> FoldKey(s, m)[i] == s[m - 1 - i]
  {
    forall i | 0 <= i < m ensures FoldKey(s, m)[i] == s[m - 1 - i] {
      ReverseAt(s[..m], i);
    }
  }

  // ---------------------------------------------------------------------
  // Re-keying by estimated amplitude.

  /** Python's `int(s, 2)` on a string of binary digits, most significant
      first; `None` where Python raises ValueError. */
  function ParseBinary(s: string): (r: Option<nat>)
    ensures r.Some? ==> r.value < Pow2(|s|)
  {
    if s == [] then None
    else
      var d := s[|s| - 1];
      if d != '0' && d != '1' then None
      else if |s| == 1 then Some(if d == '1' then 1 else 0)
      else
        match ParseBinary(s[..|s| - 1])
        case None => None
        case Some(v) => Some(2 * v + (if d == '1' then 1 else 0))
  }

  /** The positional value of a string of binary digits, read from the most
      significant digit: digit `i` weighs `2^(|s| - 1 - i)`. */
  function DigitsValue(s: string): nat
  {
    if s == [] then 0 else (if s[0] == '1' then 1 else 0) * Pow2(|s| - 1) + DigitsValue(s[1..])
  }

  /** Appending a digit doubles the value and adds the digit. */
  lemma {:induction false} DigitsValueSnoc(s: string, d: char)
    ensures DigitsValue(s + [d]) == 2 * DigitsValue(s) + (if d == '1' then 1 else 0)
  {
    if s != [] {
      assert (s + [d])[1..] == s[1..] + [d];
      DigitsValueSnoc(s[1..], d);
    }
  }

  /** `int(s, 2)` succeeds exactly on non-empty strings of binary digits, and
      its value is then their positional value. */
  lemma {:induction false} ParseBinarySpec(s: string)
    ensures ParseBinary(s).Some? <==> s != [] && forall i :: 0 <= i < |s| ==> s[i] == '0' || s[i] == '1'
    ensures ParseBinary(s).Some? ==> ParseBinary(s).value == DigitsValue(s)
  {
    if |s| > 1 {
      var init, d := s[..|s| - 1], s[|s| - 1];
      assert s == init + [d];
      ParseBinarySpec(init);
      DigitsValueSnoc(init, d);
      if ParseBinary(s).None? && d in "01" {
        var i :| 0 <= i < |init| && init[i] != '0' && init[i] != '1';
        assert s[i] == init[i];
      }
    }
  }

  predicate AllBinary(counts: Dict<string, int>)
  {
    forall i :: 0 <= i < |counts| ==> ParseBinary(counts[i].0).Some?
  }

  /** The re-keyed counts of `bitstring_to_a`. */
  function ReKey<T(==)>(counts: Dict<string, int>, m: nat, amp: (nat, nat) -> T): Dict<T, int>
    requires AllBinary(counts)
  {
    if counts == [] then []
    else
      var last := counts[|counts| - 1];
      AddTo(ReKey(counts[..|counts| - 1], m, amp), amp(ParseBinary(last.0).value, m), last.1)
  }

  /** `bitstring_to_a`. A key that is not a binary numeral raises ValueError. */
  method BitstringToA<T(==)>(counts: Dict<string, int>, m: nat, amp: (nat, nat) -> T)
    returns (r: Result<Dict<T, int>>)
    ensures r == if AllBinary(counts) then Ok(ReKey(counts, m, amp)) else Err(ValueError)
  {
    var est: Dict<T, int> := [];
    for i := 0 to |counts|
      invariant AllBinary(counts[..i])
      invariant est == ReKey(counts[..i], m, amp)
    {
      var value := ParseBinary(counts[i].0);
      if value.None? {
        return Err(ValueError);
      }
      var aEst := amp(value.value, m);
      assert counts[..i + 1][..i] == counts[..i];
      if aEst !in Keys(est) {
        AddToFresh(est, aEst, 0);
        est := est + [(aEst, 0)];
        AddToZero(est[..|est| - 1], aEst, counts[i].1);
      }
      est := AddTo(est, aEst, counts[i].1);
    }
    assert counts[..|counts|] == counts;
    r := Ok(est);
  }

  lemma {:induction false} AddToZero<K>(d: Dict<K, int>, k: K, v: int)
    requires k !in Keys(d)
    ensures AddTo(d + [(k, 0)], k, v) == AddTo(d, k, v)
  {
    if d != [] {
      assert Keys(d) == [d[0].0] + Keys(d[1..]);
      assert (d + [(k, 0)])[1..] == d[1..] + [(k, 0)];
      AddToZero(d[1..], k, v);
    }
  }

  /** Re-keying keeps every shot, whatever the amplitude function. */
  lemma {:induction false} ReKeyTotal<T>(counts: Dict<string, int>, m: nat, amp: (nat, nat) -> T)
    requires AllBinary(counts)
    ensures Total(ReKey(counts, m, amp)) == Total(counts)
  {
    if counts != [] {
      var init, last := counts[..|counts| - 1], counts[|counts| - 1];
      ReKeyTotal(init, m, amp);
      AddToTotal(ReKey(init, m, amp), amp(ParseBinary(last.0).value, m), last.1);
      assert counts == init + [last];
      TotalAppend(init, [last]);
    }
  }

  /** Sum of the counts whose key estimates amplitude `a`. */
  function SumEstimating<T(==)>(counts: Dict<string, int>, m: nat, amp: (nat, nat) -> T, a: T): int
    requires AllBinary(counts)
  {
    if counts == [] then 0
    else
      var last := counts[|counts| - 1];
      SumEstimating(counts[..|counts| - 1], m, amp, a)
      + (if amp(ParseBinary(last.0).value, m) == a then last.1 else 0)
  }

  /** The amplitude keys are distinct, are exactly the amplitudes estimated
      by some bitstring, and each holds the total count of the bitstrings
      estimating it. */
  lemma {:induction false} ReKeyContents<T>(counts: Dict<string, int>, m: nat, amp: (nat, nat) -> T)
    requires AllBinary(counts)
    ensures DistinctKeys(ReKey(counts, m, amp))
    ensures forall a :: a in Keys(ReKey(counts, m, amp)) <==>
      exists i :: 0 <= i < |counts| && amp(ParseBinary(counts[i].0).value, m) == a
    ensures forall a :: Lookup(ReKey(counts, m, amp), a) == SumEstimating(counts, m, amp, a)
  {
    if counts != [] {
      var init, last := counts[..|counts| - 1], counts[|counts| - 1];
      ReKeyContents(init, m, amp);
      var key := amp(ParseBinary(last.0).value, m);
      AddToKeys(ReKey(init, m, amp), key, last.1);
      forall a ensures Lookup(ReKey(counts, m, amp), a) == SumEstimating(counts, m, amp, a) {
        LookupAddTo(ReKey(init, m, amp), key, last.1, a);
      }
      forall a | a in Keys(ReKey(counts, m, amp))
        ensures exists i :: 0 <= i < |counts| && amp(ParseBinary(counts[i].0).value, m) == a
      {
        if a != key {
          var i :| 0 <= i < |init| && amp(ParseBinary(init[i].0).value, m) == a;
          assert counts[i] == init[i];
        }
      }
      forall a | exists i :: 0 <= i < |counts| && amp(ParseBinary(counts[i].0).value, m) == a
        ensures a in Keys(ReKey(counts, m, amp))
      {
        var i :| 0 <= i < |counts| && amp(ParseBinary(counts[i].0).value, m) == a;
        if i < |init| {
          assert init[i] == counts[i];
        }
      }
    }
  }

  /** The counts `analyze_and_print_result` hands to the fidelity computation. */
  method AnalyzeCounts<T(==)>(raw: Dict<string, int>, m: nat, amp: (nat, nat) -> T)
    returns (r: Result<Dict<T, int>>)
    ensures r.Ok? <==> AllBinary(Fold(raw, m))
    ensures r.Ok? ==> r.value == ReKey(Fold(raw, m), m, amp) && Total(r.value) == Total(raw)
  {
    var countsStr := FoldCounts(raw, m);
    r := BitstringToA(countsStr, m, amp);
    if r.Ok? {
      FoldTotal(raw, m);
      ReKeyTotal(countsStr, m, amp);
    }
  }
}
