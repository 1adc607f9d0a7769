/** The prefix size: the smallest of five candidates that enough records fit. */
module PrefixSize {
  import opened Basics

  /** How many records have at most `n` bytes. */
  function FitCount(records: seq<Bytes>, n: nat): (c: nat)
    ensures c <= |records|
  {
    if records == [] then
      0
    else
      FitCount(records[..|records| - 1], n) + if |records[|records| - 1]| <= n then 1 else 0
  }

  predicate IsCandidate(n: nat) {
    n == 64 || n == 72 || n == 80 || n == 88 || n == 96
  }

  /** Nine tenths must fit below 80 bytes, seven tenths below 96; the ratios are compared without dividing. */
  predicate FitsEnough(records: seq<Bytes>, n: nat) {
    if n < 80 then
      10 * FitCount(records, n) >= 9 * |records|
    else if n < 96 then
      10 * FitCount(records, n) >= 7 * |records|
    else
      true
  }

  /** The first candidate from `n` that enough records fit. */
  function FirstFit(records: seq<Bytes>, n: nat): (r: nat)
    requires IsCandidate(n)
    ensures IsCandidate(r) && r >= n && FitsEnough(records, r)
    ensures forall m :: n <= m < r && IsCandidate(m) ==> !FitsEnough(records, m)
    decreases 96 - n
  {
    if FitsEnough(records, n) then n else FirstFit(records, n + 8)
  }

  function Chosen(records: seq<Bytes>): (r: nat)
    ensures IsCandidate(r)
  {
    FirstFit(records, 64)
  }

  method ChoosePrefixSize(records: seq<Bytes>) returns (n: nat)
    ensures n == Chosen(records)
  {
    n := 64;
    while true
      invariant IsCandidate(n) && FirstFit(records, n) == Chosen(records)
      decreases 96 - n
    {
      var fit := FitCount(records, n);
      if n < 80 && 10 * fit < 9 * |records| {
        n := n + 8;
      } else if n < 96 && n >= 80 && 10 * fit < 7 * |records| {
        n := n + 8;
      } else {
        return;
      }
    }
  }

  /** The chosen size is the only candidate that fits enough with every smaller one failing. */
  lemma ChosenIsLeast(records: seq<Bytes>, n: nat)
    ensures n == Chosen(records) <==>
      IsCandidate(n) && FitsEnough(records, n) && forall m :: 0 <= m < n && IsCandidate(m) ==> !FitsEnough(records, m)
  {
    var c := Chosen(records);
    assert forall m :: 0 <= m < c && IsCandidate(m) ==> 64 <= m;
  }
}
