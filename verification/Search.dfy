/**
 Two searches by doubling and bisection: for the largest block the kernel will allocate,
 Tasks/+TASKS/memmax/memmax.c, and for a number, Tasks/+TASKS/memmax/iter.c. C arithmetic on
 64-bit unsigned numbers is written out with U64.
 */
module Iter {
  import opened Common

  /** Any number is tried until it is no longer below the target. */
  predicate Ok(val: nat, lim: nat) {
    lim < val
  }

  /** The upper bound after `k` doublings in 64-bit arithmetic. */
  function Doubled(k: nat): nat {
    if k == 0 then 1 else U64(Doubled(k - 1) * 2)
  }

  lemma PowerOf63()
    ensures Pow(2, 63) == TWO_63
  {
    assert Pow(2, 7) == 128;
    PowAdd(2, 7, 7);
    PowAdd(2, 14, 14);
    PowAdd(2, 28, 28);
    PowAdd(2, 56, 7);
  }

  lemma {:induction false} DoubledIsPower(k: nat)
    requires k < 64
    ensures Doubled(k) == Pow(2, k) && 1 <= Pow(2, k) <= TWO_63
  {
    PowPositive(k);
    PowerOf63();
    PowMonotone(k, 63);
    if k > 0 { DoubledIsPower(k - 1); }
  }

  /** After 64 doublings the bound has become 0 and stays 0. */
  lemma {:induction false} DoubledWraps(k: nat)
    requires k >= 64
    ensures Doubled(k) == 0
  {
    if k == 64 {
      DoubledIsPower(k - 1);
      PowerOf63();
    } else {
      DoubledWraps(k - 1);
    }
  }

  lemma DoubledBounds(k: nat)
    requires k < 64
    ensures 1 <= Doubled(k) <= TWO_63
    ensures Doubled(k) < TWO_63 ==> k < 63 && Doubled(k + 1) == 2 * Doubled(k)
    ensures k > 0 ==> Doubled(k) / 2 == Doubled(k - 1)
  {
    DoubledIsPower(k);
    PowerOf63();
    if k < 63 { DoubledIsPower(k + 1); }
    if k > 0 { DoubledIsPower(k - 1); }
  }

  /** The first loop ends exactly for the targets up to 2^63. */
  lemma DoublingEndsIff(val: nat)
    requires val < TWO_64
    ensures (exists k :: !Ok(val, Doubled(k))) <==> val <= TWO_63
  {
    if val <= TWO_63 {
      var k: nat :| k == 63;
      DoubledIsPower(k);
      PowerOf63();
      assert !Ok(val, Doubled(k));
    } else {
      forall k ensures Ok(val, Doubled(k)) {
        if k < 64 { DoubledBounds(k); } else { DoubledWraps(k); }
      }
    }
  }

  /** Both loops of main for one target: the number found is the target, except that 0 is found as 1. */
  method Search(val: nat) returns (limh: nat)
    requires val <= TWO_63
    ensures limh == Max(val, 1)
    ensures limh == val <==> val >= 1
  {
    var liml := 0;
    ghost var k := 0;
    limh := 1;
    while true
      invariant k < 64 && limh == Doubled(k) && (k > 0 ==> Doubled(k - 1) < val)
      decreases 64 - k
    {
      DoubledBounds(k);
      if !Ok(val, limh) { break; }
      assert U64(limh * 2) == limh * 2;
      limh := U64(limh * 2);
      k := k + 1;
    }
    liml := limh / 2;
    while true
      invariant liml < limh <= TWO_63
      invariant val >= 1 ==> liml < val <= limh
      invariant val == 0 ==> limh == 1
      decreases limh - liml
    {
      assert U64(limh + liml) == limh + liml;
      var midle := U64(limh + liml) / 2;
      if limh == val || limh - liml < 2 { break; }
      if Ok(val, midle) { liml := midle; } else { limh := midle; }
    }
  }
}

module MemMax {
  import opened Common
  import Iter

  /** An allocation of `lim` bytes succeeds up to the limit; vmalloc, unlike kmalloc, never gives 0 bytes. */
  predicate Ok(vmalloc: bool, limit: nat, lim: nat) {
    lim <= limit && !(vmalloc && lim == 0)
  }

  /** Half the sum, computed without overflow but with both halves rounded down. */
  function Middle(liml: nat, limh: nat): nat {
    limh / 2 + liml / 2
  }

  lemma MiddleBounds(liml: nat, limh: nat)
    requires liml < limh
    ensures liml <= Middle(liml, limh) < limh && limh - Middle(liml, limh) <= Middle(liml, limh) - liml + 2
  {
  }

  lemma MiddleFits(liml: nat, limh: nat)
    requires liml <= limh < TWO_64
    ensures U64(limh / 2 + liml / 2) == Middle(liml, limh) <= limh
  {
  }

  /** x is a multiple of 2^j. */
  predicate Multiple(x: nat, j: nat) {
    j == 0 || (x % 2 == 0 && Multiple(x / 2, j - 1))
  }

  lemma {:induction false} MultipleNext(x: nat, j: nat)
    requires Multiple(x, j)
    ensures Multiple(x + Pow(2, j), j)
    ensures j > 0 ==> Multiple(x, j - 1)
  {
    if j > 0 {
      MultipleNext(x / 2, j - 1);
      assert (x + Pow(2, j)) / 2 == x / 2 + Pow(2, j - 1);
    }
  }

  lemma {:induction false} ZeroIsMultiple(j: nat)
    ensures Multiple(0, j)
  {
    if j > 0 { ZeroIsMultiple(j - 1); }
  }

  /** liml is a multiple of 2^j and limh the next one. */
  predicate Dyadic(liml: nat, limh: nat, j: nat) {
    Multiple(liml, j) && limh == liml + Pow(2, j)
  }

  /** Halving a dyadic interval is exact and gives two dyadic intervals. */
  lemma DyadicHalves(liml: nat, limh: nat, j: nat)
    requires Dyadic(liml, limh, j) && j > 0
    ensures var m := Middle(liml, limh);
            && m - liml == limh - m == Pow(2, j - 1)
            && Dyadic(liml, m, j - 1) && Dyadic(m, limh, j - 1)
  {
    MultipleNext(liml, j);
    MultipleNext(liml, j - 1);
  }

  /**
   The second loop. From any start with ok(liml) and not ok(limh) the result misses the limit by
   at most 2; from a dyadic start of width 2^j it is exact after j probes (one, for width 1). From
   0 and 0 it ends at once.
   */
  method Bisect(vmalloc: bool, l0: nat, h0: nat, limit: nat, ghost dyadic: bool, ghost j0: nat)
    returns (liml: nat, probes: nat)
    requires h0 < TWO_64 && (dyadic ==> Dyadic(l0, h0, j0))
    requires (l0 < h0 && limit < h0) || (l0 == h0 == 0 && !dyadic && !Ok(vmalloc, limit, 0))
    ensures l0 <= limit < h0 ==> liml <= limit <= liml + 2
    ensures limit < l0 ==> liml == l0
    ensures h0 == 0 ==> liml == 0 && probes == 1
    ensures dyadic ==> probes == Max(1, j0) && (l0 <= limit ==> liml == limit)
  {
    var limh := h0;
    ghost var j := j0;
    liml, probes := l0, 0;
    while true
      invariant l0 <= liml <= limh <= h0
      invariant if l0 < h0 then liml < limh && limit < limh else liml == limh == probes == 0
      invariant if l0 <= limit then liml <= limit else liml == l0
      invariant dyadic ==> Dyadic(liml, limh, j) && probes + j == j0 && (j0 > 0 ==> j > 0)
      decreases limh - liml
    {
      MiddleFits(liml, limh);
      if l0 < h0 { MiddleBounds(liml, limh); }
      if dyadic { DyadicWidth(liml, limh, j); }
      var midle := U64(limh / 2 + liml / 2);
      assert midle == Middle(liml, limh);
      var res := Ok(vmalloc, limit, midle);
      probes := probes + 1;
      if limh == midle || midle - liml < 2 {
        if res { liml := midle; }
        break;
      }
      if res { liml := midle; } else { limh := midle; }
      j := if dyadic then j - 1 else j;
    }
  }

  /** How far the middle of a dyadic interval is from its ends. */
  lemma DyadicWidth(liml: nat, limh: nat, j: nat)
    requires Dyadic(liml, limh, j)
    ensures var m := Middle(liml, limh);
            && (j == 0 ==> limh == liml + 1)
            && (j == 1 ==> m == liml + 1 && limh == liml + 2)
            && (j > 1 ==> m - liml >= 2 && Dyadic(liml, m, j - 1) && Dyadic(m, limh, j - 1))
  {
    if j > 0 { DyadicHalves(liml, limh, j); }
    if j > 1 { PowPositive(j - 1); }
  }

  /**
   The first loop, which tries Doubled(p), Doubled(p + 1) and so on, ends exactly for limits below
   2^63, or with vmalloc: otherwise no power of two fails, the bound wraps around to 0, and kmalloc
   never fails for 0 bytes.
   */
  lemma DoublingEndsIff(vmalloc: bool, p: nat, limit: nat)
    requires p < 64 && limit < TWO_64
    ensures Iter.Doubled(p) == Pow(2, p)
    ensures (exists k: nat :: k >= p && !Ok(vmalloc, limit, Iter.Doubled(k))) <==> limit < TWO_63 || vmalloc
  {
    Iter.DoubledIsPower(p);
    if limit < TWO_63 {
      var k: nat :| k == 63;
      Iter.DoubledIsPower(k);
      Iter.PowerOf63();
      assert !Ok(vmalloc, limit, Iter.Doubled(k));
    } else if vmalloc {
      var k: nat :| k == 64;
      Iter.DoubledWraps(k);
      assert !Ok(vmalloc, limit, Iter.Doubled(k));
    } else {
      forall k: nat ensures Ok(vmalloc, limit, Iter.Doubled(k)) {
        if k < 64 { Iter.DoubledBounds(k); } else { Iter.DoubledWraps(k); }
      }
    }
  }

  /**
   The first loop, for a page of 2^p bytes: d doublings until the allocation fails. With vmalloc and
   a limit of 2^63 or more that is after the bound has wrapped around.
   */
  method Double(vmalloc: bool, p: nat, limit: nat) returns (limh: nat, ghost d: nat, probes: nat)
    requires p < 64 && limit < TWO_64 && (limit < TWO_63 || vmalloc)
    ensures probes == d + 1
    ensures limit < TWO_63 ==> limh == Pow(2, p + d) && limit < limh < TWO_64
    ensures limit < TWO_63 && d > 0 ==> Pow(2, p + d - 1) <= limit
    ensures limit < TWO_63 ==> limit < limh && (limh == Pow(2, p) || limh / 2 <= limit)
    ensures limit >= TWO_63 ==> limh == 0
    ensures limit >= TWO_63 ==> p + d == 64
  {
    limh, d, probes := Pow(2, p), 0, 0;
    Iter.DoubledIsPower(p);
    while true
      invariant limh == Iter.Doubled(p + d) && p + d <= 64 && probes == d
      invariant limit < TWO_63 ==> p + d < 64
      invariant limit < TWO_63 && d > 0 ==> Iter.Doubled(p + d - 1) <= limit
      decreases 64 - d
    {
      probes := probes + 1;
      if p + d < 64 { Iter.DoubledBounds(p + d); } else { Iter.DoubledWraps(p + d); }
      if !Ok(vmalloc, limit, limh) { break; }
      limh := U64(limh * 2);
      d := d + 1;
    }
    DoubledPowers(p, d);
  }

  lemma DoubledPowers(p: nat, d: nat)
    requires p + d <= 64
    ensures p + d < 64 ==> Iter.Doubled(p + d) == Pow(2, p + d)
    ensures d > 0 ==> Iter.Doubled(p + d - 1) == Pow(2, p + d - 1)
    ensures d > 0 ==> Pow(2, p + d) / 2 == Pow(2, p + d - 1)
  {
    if p + d < 64 { Iter.DoubledIsPower(p + d); }
    if d > 0 {
      Iter.DoubledIsPower(p + d - 1);
      HalfOfPower(p + d);
    }
  }

  /**
   The whole search. For a limit below 2^63 it finds the limit exactly if and only if half a page
   can be allocated, and half a page otherwise; for a page of 4096 bytes (p == 12) it makes 2d + 12
   probes. With vmalloc and a limit beyond that it finds 0.
   */
  method Search(vmalloc: bool, p: nat, limit: nat) returns (liml: nat, ghost d: nat, probes: nat)
    requires p < 64 && limit < TWO_64 && (limit < TWO_63 || vmalloc)
    ensures limit < TWO_63 ==> liml == Max(limit, Pow(2, p) / 2)
    ensures liml == limit <==> limit < TWO_63 && limit >= Pow(2, p) / 2
    ensures limit < TWO_63 ==> limit < Pow(2, p + d) && (d > 0 ==> Pow(2, p + d - 1) <= limit)
    ensures limit < TWO_63 ==> probes == d + 1 + Max(1, p + d - 1)
    ensures limit < TWO_63 && p == 12 ==> probes == 2 * d + 12
    ensures limit >= TWO_63 ==> liml == 0
  {
    var limh, first;
    limh, d, first := Double(vmalloc, p, limit);
    ghost var dyadic := limit < TWO_63;
    ghost var j := if p + d == 0 then 0 else p + d - 1;
    if dyadic { HalfIsDyadic(p + d); }
    if dyadic && d > 0 { PowMonotone(p, p + d - 1); }
    liml, probes := Bisect(vmalloc, limh / 2, limh, limit, dyadic, j);
    probes := probes + first;
  }

  lemma HalfOfPower(e: nat)
    requires e > 0
    ensures Pow(2, e) / 2 == Pow(2, e - 1) && Pow(2, e) == Pow(2, e - 1) + Pow(2, e - 1)
  {
  }

  lemma PowerIsMultiple(j: nat)
    ensures Multiple(Pow(2, j), j)
  {
    ZeroIsMultiple(j);
    MultipleNext(0, j);
  }

  /** From half a power of two to the power itself. */
  lemma HalfIsDyadic(e: nat)
    ensures Dyadic(Pow(2, e) / 2, Pow(2, e), if e == 0 then 0 else e - 1)
  {
    if e > 0 {
      HalfOfPower(e);
      PowerIsMultiple(e - 1);
    }
  }
}
