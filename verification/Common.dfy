/** Small vocabulary shared by all models: options, bytes, C integer widths, powers. */
module Common {

  datatype Option<+T> = None | Some(value: T)

  type Byte = b: int | 0 <= b < 256

  const TWO_31: int := 0x8000_0000
  const TWO_32: int := 0x1_0000_0000
  const TWO_63: int := 0x8000_0000_0000_0000
  const TWO_64: int := 0x1_0000_0000_0000_0000

  /** Conversion to a 32-bit unsigned C integer. */
  function U32(x: int): int {
    x % TWO_32
  }

  /** Conversion to a 64-bit unsigned C integer. */
  function U64(x: int): int {
    x % TWO_64
  }

  /** Conversion to a 32-bit signed C integer (two's complement). */
  function I32(x: int): int {
    var u := x % TWO_32;
    if u < TWO_31 then u else u - TWO_32
  }

  /** Conversion to a 64-bit signed C integer (two's complement). */
  function I64(x: int): int {
    var u := x % TWO_64;
    if u < TWO_63 then u else u - TWO_64
  }

  function Min(a: int, b: int): int {
    if a <= b then a else b
  }

  function Max(a: int, b: int): int {
    if a <= b then b else a
  }

  function Abs(a: int): nat {
    if a < 0 then -a else a
  }

  function Pow(b: nat, e: nat): nat {
    if e == 0 then 1 else b * Pow(b, e - 1)
  }

  function Sum(s: seq<int>): int {
    if s == [] then 0 else s[0] + Sum(s[1..])
  }

  lemma {:induction false} SumUpdate(s: seq<int>, k: nat, v: int)
    requires k < |s|
    ensures Sum(s[k := v]) == Sum(s) - s[k] + v
  {
    if k > 0 {
      assert s[k := v][1..] == s[1..][k - 1 := v];
      SumUpdate(s[1..], k - 1, v);
    } else {
      assert s[k := v][1..] == s[1..];
    }
  }

  lemma {:induction false} SumConstant(s: seq<int>, c: int)
    requires forall i :: 0 <= i < |s| ==> s[i] == c
    ensures Sum(s) == |s| * c
  {
    if s != [] {
      SumConstant(s[1..], c);
      assert |s| * c == (|s| - 1) * c + c;
    }
  }

  /** Two positions of a sequence of naturals cannot together exceed the sum. */
  lemma {:induction false} SumBounds(s: seq<int>, j: nat, k: nat)
    requires forall i :: 0 <= i < |s| ==> s[i] >= 0
    requires j < k < |s|
    ensures s[j] + s[k] <= Sum(s)
  {
    if j == 0 {
      SumBound(s[1..], k - 1);
    } else {
      SumBounds(s[1..], j - 1, k - 1);
    }
  }

  lemma {:induction false} SumBound(s: seq<int>, k: nat)
    requires forall i :: 0 <= i < |s| ==> s[i] >= 0
    requires k < |s|
    ensures 0 <= s[k] <= Sum(s)
  {
    if k > 0 {
      SumBound(s[1..], k - 1);
    } else if |s| > 1 {
      SumBound(s[1..], 0);
    }
  }

  lemma {:induction false} SumPositive(s: seq<int>) returns (k: nat)
    requires Sum(s) > 0
    ensures k < |s| && s[k] > 0
  {
    if s[0] > 0 {
      k := 0;
    } else {
      k := SumPositive(s[1..]);
      k := k + 1;
    }
  }

  lemma {:induction false} SumNonNegative(s: seq<int>)
    requires forall i :: 0 <= i < |s| ==> s[i] >= 0
    ensures Sum(s) >= 0
  {
    if s != [] { SumNonNegative(s[1..]); }
  }

  lemma {:induction false} PowPositive(j: nat)
    ensures Pow(2, j) >= 1
    ensures j > 0 ==> Pow(2, j) >= 2
  {
    if j > 0 { PowPositive(j - 1); }
  }

  lemma {:induction false} PowMonotone(i: nat, j: nat)
    requires i <= j
    ensures Pow(2, i) <= Pow(2, j)
    decreases j
  {
    if i < j { PowMonotone(i, j - 1); }
  }

  lemma {:induction false} PowAdd(b: nat, i: nat, j: nat)
    ensures Pow(b, i + j) == Pow(b, i) * Pow(b, j)
  {
    if i > 0 {
      PowAdd(b, i - 1, j);
      assert b * (Pow(b, i - 1) * Pow(b, j)) == (b * Pow(b, i - 1)) * Pow(b, j);
    }
  }
}
