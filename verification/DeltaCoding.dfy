// The number-list side of the codec: differences mod 2^32 and their prefix sums,
// the bit length of a value, and the slot width a list of differences is given.

module DeltaCoding {
  import opened Bits

  const BLOCK_SIZE := 127

  // Each value minus its predecessor (the first minus zero)
  function Deltas(docs: seq<u32>): (ds: seq<u32>)
    ensures |ds| == |docs|
  {
    seq(|docs|, i requires 0 <= i < |docs| => Sub32(docs[i], Previous(docs, i)))
  }

  function Previous(docs: seq<u32>, i: nat): u32
    requires i <= |docs|
  {
    if i == 0 then 0 else docs[i - 1]
  }

  // last plus the first k differences
  function Total(ds: seq<u32>, last: u32, k: nat): u32
    requires k <= |ds|
  {
    if k == 0 then last else Add32(Total(ds, last, k - 1), ds[k - 1])
  }

  function Sums(ds: seq<u32>, last: u32): (docs: seq<u32>)
    ensures |docs| == |ds|
  {
    seq(|ds|, i requires 0 <= i < |ds| => Total(ds, last, i + 1))
  }

  function Shifted(docs: seq<u32>, last: u32): (r: seq<u32>)
    ensures |r| == |docs|
  {
    seq(|docs|, i requires 0 <= i < |docs| => Add32(docs[i], last))
  }

  lemma {:induction false} TotalOfDeltas(docs: seq<u32>, last: u32, k: nat)
    requires k <= |docs|
    ensures Total(Deltas(docs), last, k) == Add32(if k == 0 then 0 else docs[k - 1], last)
  {
    if k > 0 {
      hide Add32, Sub32;
      var p := if k == 1 then 0 else docs[k - 2];
      TotalOfDeltas(docs, last, k - 1);
      assert Deltas(docs)[k - 1] == Sub32(docs[k - 1], p);
      AddDifference(p, last, docs[k - 1]);
    }
  }

  // Summing the differences restores the list, displaced by the starting value.
  lemma SumsOfDeltas(docs: seq<u32>, last: u32)
    ensures Sums(Deltas(docs), last) == Shifted(docs, last)
    ensures last == 0 ==> Sums(Deltas(docs), last) == docs
  {
    forall i | 0 <= i < |docs| ensures Sums(Deltas(docs), last)[i] == Add32(docs[i], last) {
      TotalOfDeltas(docs, last, i + 1);
    }
  }

  lemma DeltasOfSums(ds: seq<u32>)
    ensures Deltas(Sums(ds, 0)) == ds
  {
    var docs := Sums(ds, 0);
    forall i | 0 <= i < |ds| ensures Deltas(docs)[i] == ds[i] { DeltaOfSum(ds, docs, i); }
  }

  lemma DeltaOfSum(ds: seq<u32>, docs: seq<u32>, i: nat)
    requires docs == Sums(ds, 0) && i < |ds|
    ensures Deltas(docs)[i] == ds[i]
  {
    var t := Total(ds, 0, i);
    SubtractSum(t, ds[i]);
    assert docs[i] == Add32(t, ds[i]);
    if i > 0 { assert docs[i - 1] == t; }
  }

  // In integers: a difference added to the value before gives the value, mod 2^32, and is the
  // true difference of a list that does not fall.
  lemma DeltasInNumbers(docs: seq<u32>, i: nat)
    requires i < |docs|
    ensures var before: int := if i == 0 then 0 else docs[i - 1];
      && (before + Deltas(docs)[i]) % 0x1_0000_0000 == docs[i]
      && (before <= docs[i] ==> Deltas(docs)[i] == docs[i] - before)
  {
  }

  // The sum of the first k differences
  function SumOf(ds: seq<u32>, k: nat): nat
    requires k <= |ds|
  {
    if k == 0 then 0 else SumOf(ds, k - 1) + ds[k - 1]
  }

  lemma {:induction false} TotalInNumbers(ds: seq<u32>, last: u32, k: nat)
    requires k <= |ds|
    ensures Total(ds, last, k) == (last + SumOf(ds, k)) % 0x1_0000_0000
  {
    if k > 0 {
      TotalInNumbers(ds, last, k - 1);
      Modular32(Total(ds, last, k - 1), ds[k - 1]);
      hide Add32, SumOf;
      SumOfNext(ds, k - 1);
      SumMod(last + SumOf(ds, k - 1), ds[k - 1]);
    }
  }

  lemma SumOfNext(ds: seq<u32>, k: nat)
    requires k < |ds|
    ensures SumOf(ds, k + 1) == SumOf(ds, k) + ds[k]
  {
  }

  lemma SumMod(x: nat, y: nat)
    ensures (x % 0x1_0000_0000 + y) % 0x1_0000_0000 == (x + y) % 0x1_0000_0000
  {
    var m := 0x1_0000_0000;
    assert x == m * (x / m) + x % m;
    ModAdds(x / m, x % m + y);
  }

  lemma ModAdds(q: nat, y: nat)
    ensures (0x1_0000_0000 * q + y) % 0x1_0000_0000 == y % 0x1_0000_0000
  {
  }

  // Each decoded value is the starting total and the differences so far, mod 2^32.
  lemma SumsInNumbers(ds: seq<u32>, last: u32, i: nat)
    requires i < |ds|
    ensures Sums(ds, last)[i] == (last + SumOf(ds, i + 1)) % 0x1_0000_0000
  {
    TotalInNumbers(ds, last, i + 1);
  }

  // ---- bit lengths

  // The index of the highest set bit: what bsrl computes
  function HighestBit(v: nat): (b: nat)
    requires v > 0
    ensures Pow2(b) <= v < Pow2(b + 1)
  {
    if v < 2 then 0 else 1 + HighestBit(v / 2)
  }

  function BitLength(v: nat): (b: nat)
    ensures b >= 1 && v < Pow2(b)
    ensures v > 0 ==> Pow2(b - 1) <= v
  {
    if v == 0 then 1 else HighestBit(v) + 1
  }

  lemma LengthIsLeastWidth(v: nat, w: nat)
    requires w >= 1
    ensures v < Pow2(w) <==> BitLength(v) <= w
  {
    var b := BitLength(v);
    if b <= w { Pow2Monotone(b, w); } else { Pow2Monotone(w, b - 1); }
  }

  lemma LengthOfWord(v: u32)
    ensures BitLength(v) <= 32
  {
    Pow2Values();
    LengthIsLeastWidth(v, 32);
  }

  // ---- the chosen width

  // How many of the differences have w bits or fewer
  function Fitting(ds: seq<u32>, w: nat): (c: nat)
    ensures c <= |ds|
  {
    if ds == [] then 0
    else Fitting(ds[..|ds| - 1], w) + if BitLength(ds[|ds| - 1]) <= w then 1 else 0
  }

  // (int)(size * 0.9), and 1 for a single value
  function Quota(n: nat): (q: nat)
    ensures n >= 1 ==> 1 <= q <= n
  {
    if n > 1 then n * 9 / 10 else 1
  }

  lemma {:induction false} FittingMonotone(ds: seq<u32>, v: nat, w: nat)
    requires v <= w
    ensures Fitting(ds, v) <= Fitting(ds, w)
  {
    if ds != [] { FittingMonotone(ds[..|ds| - 1], v, w); }
  }

  lemma {:induction false} AllFit(ds: seq<u32>)
    ensures Fitting(ds, 32) == |ds|
    ensures Fitting(ds, 0) == 0
  {
    if ds != [] {
      LengthOfWord(ds[|ds| - 1]);
      AllFit(ds[..|ds| - 1]);
    }
  }

  // w is the least width that covers the quota.
  predicate CoversQuota(ds: seq<u32>, w: nat) {
    && 1 <= w <= 32
    && Fitting(ds, w) >= Quota(|ds|)
    && Fitting(ds, w - 1) < Quota(|ds|)
  }

  function LeastWidth(ds: seq<u32>, w: nat): (r: nat)
    requires |ds| >= 1 && w < 32
    requires Fitting(ds, w) < Quota(|ds|)
    ensures CoversQuota(ds, r)
    decreases 32 - w
  {
    AllFit(ds);
    if Fitting(ds, w + 1) >= Quota(|ds|) then w + 1 else LeastWidth(ds, w + 1)
  }

  // The slot width chosen for a non-empty list of differences
  function BitSize(ds: seq<u32>): (w: nat)
    requires |ds| >= 1
    ensures CoversQuota(ds, w)
  {
    AllFit(ds);
    LeastWidth(ds, 0)
  }

  lemma BitSizeUnique(ds: seq<u32>, w: nat)
    requires |ds| >= 1
    requires CoversQuota(ds, w)
    ensures w == BitSize(ds)
  {
    var r := BitSize(ds);
    if w < r { FittingMonotone(ds, w, r - 1); }
    if r < w { FittingMonotone(ds, r, w - 1); }
  }

  // Of two differences or more, at least nine tenths, rounded down, fit the chosen width,
  // and fewer fit the next smaller one; a single difference fits, and would not in one less.
  // No other width is like that.
  lemma NineTenthsFit(ds: seq<u32>, w: nat)
    requires |ds| >= 1 && 1 <= w <= 32
    ensures w == BitSize(ds) <==>
      if |ds| > 1 then 10 * Fitting(ds, w) > 9 * |ds| - 10 && 10 * (Fitting(ds, w - 1) + 1) <= 9 * |ds|
      else Fitting(ds, w) == 1 && Fitting(ds, w - 1) == 0
  {
    if CoversQuota(ds, w) { BitSizeUnique(ds, w); }
  }

  // How many differences from the first j are too wide for w bits
  function TooWide(ds: seq<u32>, w: nat, j: nat): (c: nat)
    requires j <= |ds|
    ensures c <= j
  {
    if j == 0 then 0
    else TooWide(ds, w, j - 1) + if ds[j - 1] >= Pow2(w) then 1 else 0
  }

  lemma {:induction false} FittingOrTooWide(ds: seq<u32>, w: nat, j: nat)
    requires j <= |ds| && w >= 1
    ensures Fitting(ds[..j], w) + TooWide(ds, w, j) == j
  {
    if j > 0 {
      assert ds[..j][..j - 1] == ds[..j - 1];
      LengthIsLeastWidth(ds[j - 1], w);
      FittingOrTooWide(ds, w, j - 1);
    }
  }

  // ---- the histogram

  // How many of the first i differences have bit length b + 1
  function Counted(ds: seq<u32>, i: nat, b: nat): (c: nat)
    requires i <= |ds|
    ensures c <= i
  {
    if i == 0 then 0
    else Counted(ds, i - 1, b) + if BitLength(ds[i - 1]) == b + 1 then 1 else 0
  }

  lemma NoneCounted(ds: seq<u32>)
    ensures forall b: nat :: Counted(ds, 0, b) == 0
  {
  }

  lemma OneCounted(ds: seq<u32>, i: nat)
    requires i < |ds|
    ensures forall b: nat :: Counted(ds, i, b) <= i
    ensures forall b: nat ::
      Counted(ds, i + 1, b) == Counted(ds, i, b) + if BitLength(ds[i]) == b + 1 then 1 else 0
  {
  }

  lemma {:induction false} FittingPrefixStep(ds: seq<u32>, i: nat, b: nat)
    requires i <= |ds|
    ensures Fitting(ds[..i], b + 1) == Fitting(ds[..i], b) + Counted(ds, i, b)
  {
    if i > 0 {
      assert ds[..i][..i - 1] == ds[..i - 1];
      FittingPrefixStep(ds, i - 1, b);
    }
  }

  // Raising the width by one lets in the differences of exactly that length.
  lemma FittingStep(ds: seq<u32>, b: nat)
    ensures Fitting(ds, b + 1) == Fitting(ds, b) + Counted(ds, |ds|, b)
  {
    assert ds[..|ds|] == ds;
    FittingPrefixStep(ds, |ds|, b);
  }

  lemma WidthFound(ds: seq<u32>, w: nat)
    requires 1 <= |ds| && w <= 32
    requires Fitting(ds, w) >= Quota(|ds|)
    requires w > 0 ==> Fitting(ds, w - 1) < Quota(|ds|)
    ensures w == BitSize(ds)
  {
    AllFit(ds);
    BitSizeUnique(ds, w);
  }

  // ---- loops that replace a list in place

  // The first i elements of ys replaced by those of xs
  function Replaced<T>(xs: seq<T>, ys: seq<T>, i: nat): (r: seq<T>)
    requires i <= |xs| <= |ys|
    ensures |r| == |ys|
  {
    xs[..i] + ys[i..]
  }

  lemma Advance<T>(xs: seq<T>, ys: seq<T>, i: nat)
    requires i < |xs| <= |ys|
    ensures forall k :: i <= k < |ys| ==> Replaced(xs, ys, i)[k] == ys[k]
    ensures Replaced(xs, ys, i)[i := xs[i]] == Replaced(xs, ys, i + 1)
  {
  }

  lemma Advance4<T>(xs: seq<T>, ys: seq<T>, i: nat)
    requires i + 4 <= |xs| <= |ys|
    ensures forall k :: i <= k < |ys| ==> Replaced(xs, ys, i)[k] == ys[k]
    ensures Replaced(xs, ys, i)[i := xs[i]][i + 1 := xs[i + 1]][i + 2 := xs[i + 2]][i + 3 := xs[i + 3]]
         == Replaced(xs, ys, i + 4)
  {
  }

  // The same for a loop that leaves the first entry alone
  function AfterFirst<T>(xs: seq<T>, ys: seq<T>, i: nat): (r: seq<T>)
    requires i <= |xs| < |ys|
    ensures |r| == |ys|
  {
    ys[..1] + xs[..i] + ys[1 + i..]
  }

  lemma AdvanceAfterFirst<T>(xs: seq<T>, ys: seq<T>, i: nat)
    requires i < |xs| < |ys|
    ensures AfterFirst(xs, ys, i)[1 + i] == ys[1 + i]
    ensures AfterFirst(xs, ys, i)[1 + i := xs[i]] == AfterFirst(xs, ys, i + 1)
  {
  }

  // ---- four steps of a running total at once

  lemma FourTotals(ds: seq<u32>, last: u32, i: nat)
    requires i + 4 <= |ds|
    ensures var t, h, g := Total(ds, last, i), Add32(ds[i], ds[i + 1]), Add32(ds[i + 2], ds[i + 3]);
      && Total(ds, last, i + 1) == Add32(t, ds[i])
      && Total(ds, last, i + 2) == Add32(t, h)
      && Total(ds, last, i + 3) == Add32(Add32(t, h), ds[i + 2])
      && Total(ds, last, i + 4) == Add32(Add32(t, h), g) == Add32(t, Add32(h, g))
  {
    hide Add32;
    var t, h := Total(ds, last, i), Add32(ds[i], ds[i + 1]);
    AddAssociates(t, ds[i], ds[i + 1]);
    assert Total(ds, last, i + 1) == Add32(t, ds[i]);
    assert Total(ds, last, i + 2) == Add32(Total(ds, last, i + 1), ds[i + 1]);
    assert Total(ds, last, i + 3) == Add32(Total(ds, last, i + 2), ds[i + 2]);
    assert Total(ds, last, i + 4) == Add32(Total(ds, last, i + 3), ds[i + 3]);
    AddAssociates(Add32(t, h), ds[i + 2], ds[i + 3]);
    AddAssociates(t, h, Add32(ds[i + 2], ds[i + 3]));
  }
}
