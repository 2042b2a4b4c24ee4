/**
 The feedback regulator of Tasks/+TASKS/asu: cli.c runs the control loop, locl.c makes one step.
 A step feeds back the negated value times the gain in percent, with C's truncating division.
 The C widths are explicit: long values, int steps.
 */
module RegulatorModel {
  import opened Common

  /** C division of a long by 100, truncating towards zero. */
  function Percent(x: int): int {
    if x >= 0 then x / 100 else -(-x / 100)
  }

  /** Values whose conversion to int and negation lose nothing. */
  predicate InInt(v: int) {
    -TWO_31 < v < TWO_31
  }

  /** do_step( -(int)value ) with gain `k` in percent. */
  function Step(v: int, k: int): int {
    I64(v + Percent(I32(-I32(v)) * k))
  }

  /** A step adds a hundredth of the negated value times the gain, rounded towards zero. */
  lemma StepMeans(v: int, k: int)
    requires InInt(v) && InInt(k)
    ensures AddsPercent(v, -v * k, Step(v, k))
  {
    I32Is(v);
    I32Is(-v);
    StepAddsPercent(v, -v, k);
  }

  function Iterate(v: int, k: int, n: nat): int {
    if n == 0 then v else Step(Iterate(v, k, n - 1), k)
  }

  /** The part of `a` that a gain of `k` percent takes back. */
  function Share(a: nat, k: nat): nat {
    a * k / 100
  }

  lemma ShareBounds(a: nat, k: nat)
    ensures 100 * Share(a, k) <= a * k < 100 * Share(a, k) + 100
  {
  }

  lemma I32Is(v: int)
    requires -TWO_31 <= v < TWO_31
    ensures I32(v) == v
  {
  }

  /** Without loss, a step moves the value by its share towards the other side of zero. */
  lemma StepIs(v: int, k: nat)
    requires InInt(v) && k < TWO_31
    ensures Step(v, k) == if v >= 0 then v - Share(v, k) else v + Share(-v, k)
  {
    I32Is(v);
    I32Is(-v);
    NegatedProduct(v, k);
    ShareLimit(Abs(v), k);
    I64Is(if v >= 0 then v - Share(v, k) else v + Share(-v, k));
  }

  lemma NegatedProduct(v: int, k: nat)
    ensures v >= 0 ==> Percent(-v * k) + Share(v, k) == 0
    ensures v < 0 ==> Percent(-v * k) == Share(-v, k)
  {
    assert -v * k == -(v * k);
    if v > 0 {
      MulNonNegative(v, k);
    } else {
      MulNonNegative(-v, k);
    }
  }

  lemma MulNonNegative(a: nat, k: nat)
    ensures a * k >= 0
  {
  }

  lemma ShareLimit(a: nat, k: nat)
    requires a <= TWO_31 && k <= TWO_31
    ensures 0 <= Share(a, k) <= TWO_31 * TWO_31
  {
    MulBounds(a, k);
  }

  lemma I64Is(x: int)
    requires -TWO_63 <= x < TWO_63
    ensures I64(x) == x
  {
  }

  lemma MulBounds(a: nat, k: nat)
    requires a <= TWO_31 && k <= TWO_31
    ensures 0 <= a * k <= TWO_31 * TWO_31
  {
    assert a * k <= TWO_31 * k;
  }

  /** At 100 percent and more the share is the value itself plus a share of k - 100 percent. */
  lemma ShareOver(a: nat, k: nat)
    requires k >= 100
    ensures Share(a, k) == a + Share(a, k - 100)
  {
    assert a * k == a * (k - 100) + 100 * a;
  }

  lemma ShareUnder(a: nat, k: nat)
    requires k <= 100
    ensures Share(a, k) <= a && (k < 100 && a > 0 ==> Share(a, k) < a)
  {
    ScaleUp(k, 100, a);
    if k < 100 { ScaleUp(k, 99, a); }
  }

  lemma ScaleUp(x: int, y: int, p: nat)
    requires x <= y
    ensures x * p <= y * p
  {
  }

  /** From 100 to 199 percent a step shrinks every nonzero value and never keeps its sign. */
  lemma Overshoots(v: int, k: int)
    requires InInt(v) && 100 <= k <= 199
    ensures var w := Step(v, k);
            && Abs(w) * 100 <= Abs(v) * (k - 100)
            && (v != 0 ==> Abs(w) < Abs(v)) && (v == 0 ==> w == 0)
            && (v > 0 ==> w <= 0) && (v < 0 ==> w >= 0)
  {
    var a, w := Abs(v), Step(v, k);
    StepIs(v, k);
    ShareOver(a, k);
    ShareUnder(a, k - 100);
    ShareBounds(a, k - 100);
    var e: int := Share(a, k - 100);
    assert w == if v >= 0 then -e else e;
  }

  /** From 1 to 100 percent a step never changes the sign or grows, and rests exactly when |v| * k < 100. */
  lemma Approaches(v: int, k: int)
    requires InInt(v) && 1 <= k <= 100
    ensures var w := Step(v, k);
            && Abs(w) <= Abs(v) && (v >= 0 ==> w >= 0) && (v <= 0 ==> w <= 0)
            && (w == v <==> Abs(v) * k < 100)
  {
    var a, w := Abs(v), Step(v, k);
    StepIs(v, k);
    ShareUnder(a, k);
    ShareBounds(a, k);
    var e: int := a - Share(a, k);
    assert w == if v >= 0 then e else -e;
  }

  /** In any number of steps, too, it never grows and never changes its sign. */
  lemma {:induction false} ApproachesAlways(v: int, k: int, m: nat, n: nat)
    requires InInt(v) && 1 <= k <= 100 && m <= n
    ensures InInt(Iterate(v, k, m)) && Abs(Iterate(v, k, n)) <= Abs(Iterate(v, k, m)) <= Abs(v)
    ensures (v >= 0 ==> Iterate(v, k, n) >= 0) && (v <= 0 ==> Iterate(v, k, n) <= 0)
    decreases n
  {
    if m < n {
      ApproachesAlways(v, k, m, n - 1);
      ApproachesAlways(v, k, n - 1, n - 1);
      Approaches(Iterate(v, k, n - 1), k);
    } else if n > 0 {
      ApproachesAlways(v, k, n - 1, n - 1);
      Approaches(Iterate(v, k, n - 1), k);
    }
  }

  /** At 200 percent the value swings between v and -v. */
  lemma Swings(v: int)
    requires InInt(v)
    ensures Step(v, 200) == -v
  {
    StepIs(v, 200);
  }

  /** Above 200 percent no value shrinks. */
  lemma Diverges(v: int, k: int)
    requires InInt(v) && 200 < k < TWO_31
    ensures Abs(Step(v, k)) >= Abs(v)
  {
    var a, w := Abs(v), Step(v, k);
    StepIs(v, k);
    ShareOver(a, k);
    ShareOver(a, k - 100);
    ShareBounds(a, k - 200);
    var e: int := a + Share(a, k - 200);
    assert w == if v >= 0 then -e else e;
  }

  /** Nor does it in any number of steps, as long as the values fit an int. */
  lemma {:induction false} DivergesAlways(v: int, k: int, n: nat)
    requires 200 < k < TWO_31 && forall m: nat :: m < n ==> InInt(Iterate(v, k, m))
    ensures Abs(Iterate(v, k, n)) >= Abs(v)
  {
    if n > 0 {
      DivergesAlways(v, k, n - 1);
      Diverges(Iterate(v, k, n - 1), k);
    }
  }

  /** Without gain or with a negative gain no value shrinks either. */
  lemma Flees(v: int, k: int)
    requires InInt(v) && -TWO_31 < k <= 0
    ensures Abs(Step(v, k)) >= Abs(v)
  {
    I32Is(v);
    I32Is(-v);
    MulBounds(Abs(v), -k);
    assert -v * k == v * (-k);
    assert v < 0 ==> (-v) * (-k) == -(v * (-k));
  }

  /** The gains that shrink every nonzero value are exactly those from 100 to 199 percent. */
  lemma ShrinksIff(k: int)
    requires -TWO_31 < k < TWO_31
    ensures (forall v :: InInt(v) && v != 0 ==> Abs(Step(v, k)) < Abs(v)) <==> 100 <= k <= 199
  {
    if 100 <= k <= 199 {
      forall v | InInt(v) && v != 0 ensures Abs(Step(v, k)) < Abs(v) { Overshoots(v, k); }
    } else {
      assert InInt(1) && Abs(Step(1, k)) >= Abs(1) by {
        if k <= 0 { Flees(1, k); } else if k < 100 { Approaches(1, k); }
        else if k == 200 { Swings(1); } else { Diverges(1, k); }
      }
    }
  }

  /** |v_n| * 100^n <= |v_0| * (k - 100)^n: the value falls at least geometrically. */
  lemma {:induction false} GeometricDecay(v: int, k: int, n: nat)
    requires InInt(v) && 100 <= k <= 199
    ensures InInt(Iterate(v, k, n))
    ensures Abs(Iterate(v, k, n)) * Pow(100, n) <= Abs(v) * Pow(k - 100, n)
  {
    if n > 0 {
      GeometricDecay(v, k, n - 1);
      var u := Iterate(v, k, n - 1);
      Overshoots(u, k);
      DecayStep(Abs(Step(u, k)), Abs(u), Abs(v), k - 100, Pow(100, n - 1), Pow(k - 100, n - 1));
    }
  }

  lemma DecayStep(a: nat, b: nat, c: nat, d: nat, p: nat, q: nat)
    requires a * 100 <= b * d && b * p <= c * q
    ensures a * (100 * p) <= c * (d * q)
  {
    ScaleUp(a * 100, b * d, p);
    ScaleUp(b * p, c * q, d);
    assert a * (100 * p) == (a * 100) * p;
    assert (b * d) * p == (b * p) * d;
    assert (c * q) * d == c * (d * q);
  }

  /** From `v` to `w` a hundredth of `x` is added, rounded towards zero. */
  predicate AddsPercent(v: int, x: int, w: int) {
    && 100 * Abs(w - v) <= Abs(x) < 100 * Abs(w - v) + 100
    && (x >= 0 ==> w >= v) && (x <= 0 ==> w <= v)
  }

  /** Within int nothing wraps around. */
  lemma StepAddsPercent(v: int, step: int, k: int)
    requires InInt(v) && InInt(step) && InInt(k)
    ensures AddsPercent(v, step * k, I64(v + Percent(step * k)))
  {
    ProductBounds(step, k);
    I64Is(v + Percent(step * k));
  }

  lemma ProductBounds(a: int, b: int)
    requires InInt(a) && InInt(b)
    ensures Abs(a * b) <= TWO_31 * TWO_31
  {
    MulBounds(Abs(a), Abs(b));
    if a >= 0 && b < 0 {
      assert a * b == -(a * -b);
    } else if a < 0 && b >= 0 {
      assert a * b == -(-a * b);
    } else if a < 0 && b < 0 {
      assert a * b == -a * -b;
    }
  }
}

module Regulator {
  import opened Common
  import opened RegulatorModel

  /** After `m` steps the value, as an int, is 1 or -1. */
  predicate Near(v0: int, k: int, m: nat) {
    Abs(I32(Iterate(v0, k, m))) == 1
  }

  /** It has been so earlier. */
  ghost predicate Touched(v0: int, k: int, m: nat) {
    exists j: nat :: j < m && Near(v0, k, j)
  }

  /** The loop ends at 0, and at 1 or -1 when it is there for the second time. */
  ghost predicate Stops(v0: int, k: int, m: nat) {
    I32(Iterate(v0, k, m)) == 0 || (Near(v0, k, m) && Touched(v0, k, m))
  }

  ghost predicate RunsOn(v0: int, k: int, n: nat) {
    forall m: nat :: m < n ==> !Stops(v0, k, m)
  }

  lemma RunsOnNext(v0: int, k: int, n: nat)
    ensures RunsOn(v0, k, n + 1) <==> RunsOn(v0, k, n) && !Stops(v0, k, n)
    ensures Touched(v0, k, n + 1) <==> Touched(v0, k, n) || Near(v0, k, n)
  {
    if Touched(v0, k, n + 1) {
      var j: nat :| j < n + 1 && Near(v0, k, j);
      assert j < n ==> Touched(v0, k, n);
    }
  }

  /** The loop has not stopped in `m` steps, and `c` is 2 once it has been at 1 or -1. */
  ghost predicate Counted(v0: int, k: int, m: nat, c: int) {
    RunsOn(v0, k, m) && (c == 1 || c == 2) && (c == 2 <==> Touched(v0, k, m))
  }

  lemma CountedStops(v0: int, k: int, m: nat, c: int)
    requires Counted(v0, k, m, c) && Abs(I32(Iterate(v0, k, m))) < c
    ensures Stops(v0, k, m)
  {
  }

  lemma CountedNext(v0: int, k: int, m: nat, c: int)
    requires Counted(v0, k, m, c) && Abs(I32(Iterate(v0, k, m))) >= c
    ensures Counted(v0, k, m + 1, if Abs(I32(Iterate(v0, k, m))) == 1 then 2 else c)
  {
    RunsOnNext(v0, k, m);
  }

  /** The commands `*`, `!` and `=` with their numbers; any other one only prints. */
  datatype Command = SetGain(ku: int) | SetLength(newLen: int) | Disturb(newVal: int) | Other

  predicate Disturbs(c: Command) {
    c.Disturb? && c.newVal != 0
  }

  predicate LastDisturbance(cs: seq<Command>, j: int) {
    0 <= j < |cs| && Disturbs(cs[j]) && forall m :: j < m < |cs| ==> !Disturbs(cs[m])
  }

  /** The gain after some commands: the last one set that is not 0. */
  function LastGain(k: int, cs: seq<Command>): int {
    if cs == [] then k
    else
      var c := cs[|cs| - 1];
      if c.SetGain? && c.ku != 0 then c.ku else LastGain(k, cs[..|cs| - 1])
  }

  lemma {:induction false} LastGainIs(k: int, cs: seq<Command>, j: nat)
    requires j < |cs| && cs[j].SetGain? && cs[j].ku != 0
    requires forall m :: j < m < |cs| ==> !(cs[m].SetGain? && cs[m].ku != 0)
    ensures LastGain(k, cs) == cs[j].ku
    decreases |cs|
  {
    if j < |cs| - 1 {
      LastGainIs(k, cs[..|cs| - 1], j);
    }
  }

  /** The number of steps, likewise. */
  function LastLength(n: int, cs: seq<Command>): int {
    if cs == [] then n
    else
      var c := cs[|cs| - 1];
      if c.SetLength? && c.newLen != 0 then c.newLen else LastLength(n, cs[..|cs| - 1])
  }

  /** The shared variables of the local back-end. */
  class Loop {
    var value: int
    var multy: int

    constructor ()
      ensures value == 0 && multy == 100
    {
      value, multy := 0, 100;
    }

    method SetValue(v: int)
      modifies this`value
      ensures value == v
    {
      value := v;
    }

    method SetMulty(k: int)
      modifies this`multy
      ensures multy == k
    {
      multy := k;
    }

    method DoStep(step: int)
      modifies this`value
      ensures value == I64(old(value) + Percent(step * multy))
      ensures InInt(old(value)) && InInt(step) && InInt(multy) ==> AddsPercent(old(value), step * multy, value)
    {
      if InInt(value) && InInt(step) && InInt(multy) { StepAddsPercent(value, step, multy); }
      value := I64(value + Percent(step * multy));
    }

    /**
     The regulation loop for at most `nlen` steps. `c` makes the loop try one more step after the
     value has come down to 1 or -1.
     */
    method Regulate(nlen: int) returns (steps: nat)
      modifies this`value
      ensures RanFor(old(value), multy, nlen, value, steps)
      ensures InInt(old(value)) ==> Regulated(old(value), multy, nlen, value)
    {
      ghost var v0 := value;
      var n, c := 0, 1;
      steps := 0;
      while true
        invariant value == Iterate(v0, multy, steps) && steps == n <= Max(nlen, 0) && 1 <= c <= 2
        invariant Counted(v0, multy, steps, c)
        decreases nlen - n
      {
        var cur := value;
        if Abs(I32(cur)) < c {
          CountedStops(v0, multy, steps, c);
          break;
        }
        n := n + 1;
        if n > nlen { break; }
        CountedNext(v0, multy, steps, c);
        if 1 == Abs(I32(cur)) { c := 2; }
        DoStep(I32(-I32(value)));
        steps := steps + 1;
      }
      if InInt(v0) { RanMeans(v0, multy, nlen, value, steps); }
    }

    /** The command `=`: a disturbance of 0 is none, any other one is regulated at once. */
    method Disturb(newVal: int, nlen: int) returns (steps: nat)
      modifies this`value
      ensures newVal == 0 ==> value == old(value) && steps == 0
      ensures newVal != 0 ==> value == Iterate(newVal, multy, steps) && steps <= Max(nlen, 0)
      ensures newVal != 0 ==> Outcome(newVal, multy, nlen, value)
    {
      steps := 0;
      if newVal != 0 {
        SetValue(newVal);
        steps := Regulate(nlen);
      }
    }

    /** One command; the result is the number of steps from then on. */
    method Execute(c: Command, nlen0: int) returns (nlen: int)
      modifies this
      ensures (multy, nlen) == Settings(old(multy), nlen0, c)
      ensures !Disturbs(c) ==> value == old(value)
      ensures Disturbs(c) ==> Outcome(c.newVal, multy, nlen, value)
    {
      nlen := nlen0;
      match c {
        case SetGain(ku) => if ku != 0 { SetMulty(ku); }
        case SetLength(newLen) => if newLen != 0 { nlen := newLen; }
        case Disturb(newVal) => var _ := Disturb(newVal, nlen);
        case Other =>
      }
    }

    /**
     The command loop of main. The last disturbance that is not 0 was regulated with the gain and
     the number of steps set last before it, and the commands after it leave its outcome alone.
     */
    method Commands(cs: seq<Command>, nlen0: int) returns (nlen: int)
      modifies this
      ensures After(old(multy), nlen0, old(value), cs, multy, nlen, value)
    {
      nlen := nlen0;
      var i := 0;
      AfterNone(multy, nlen, value, cs);
      while i < |cs|
        invariant 0 <= i <= |cs|
        invariant After(old(multy), nlen0, old(value), cs[..i], multy, nlen, value)
      {
        ghost var k, n, v := multy, nlen, value;
        nlen := Execute(cs[i], nlen);
        AfterPrefix(old(multy), nlen0, old(value), cs, i, k, n, v, multy, nlen, value);
        i := i + 1;
      }
      assert cs[..|cs|] == cs;
    }
  }

  /** The value after the loop has made `steps` steps, as many as allowed or up to its first stop. */
  ghost predicate RanFor(v0: int, k: int, nlen: int, v: int, steps: nat) {
    && v == Iterate(v0, k, steps) && steps <= Max(nlen, 0)
    && RunsOn(v0, k, steps) && (steps == Max(nlen, 0) || Stops(v0, k, steps))
  }

  /** What the loop makes of a disturbance. */
  ghost predicate Outcome(v0: int, k: int, nlen: int, v: int) {
    (exists steps: nat :: RanFor(v0, k, nlen, v, steps)) && (InInt(v0) ==> Regulated(v0, k, nlen, v))
  }

  /** Gain and number of steps after one command. */
  function Settings(k: int, n: int, c: Command): (int, int) {
    match c
    case SetGain(ku) => (if ku != 0 then ku else k, n)
    case SetLength(newLen) => (k, if newLen != 0 then newLen else n)
    case _ => (k, n)
  }

  lemma {:induction false} LastLengthIs(n: int, cs: seq<Command>, j: nat)
    requires j < |cs| && cs[j].SetLength? && cs[j].newLen != 0
    requires forall m :: j < m < |cs| ==> !(cs[m].SetLength? && cs[m].newLen != 0)
    ensures LastLength(n, cs) == cs[j].newLen
    decreases |cs|
  {
    if j < |cs| - 1 {
      LastLengthIs(n, cs[..|cs| - 1], j);
    }
  }

  /** Settings of 0 are none. */
  lemma {:induction false} NoSettings(k: int, n: int, cs: seq<Command>)
    ensures (forall m :: 0 <= m < |cs| ==> !(cs[m].SetGain? && cs[m].ku != 0)) ==> LastGain(k, cs) == k
    ensures (forall m :: 0 <= m < |cs| ==> !(cs[m].SetLength? && cs[m].newLen != 0)) ==> LastLength(n, cs) == n
    decreases |cs|
  {
    if cs != [] { NoSettings(k, n, cs[..|cs| - 1]); }
  }

  /** Gain, number of steps and value after some commands, from those before. */
  ghost predicate After(k0: int, n0: int, v0: int, cs: seq<Command>, k: int, n: int, v: int) {
    && k == LastGain(k0, cs) && n == LastLength(n0, cs)
    && ((forall i :: 0 <= i < |cs| ==> !Disturbs(cs[i])) ==> v == v0)
    && (forall j :: LastDisturbance(cs, j) ==>
          Outcome(cs[j].newVal, LastGain(k0, cs[..j]), LastLength(n0, cs[..j]), v))
  }

  lemma AfterNext(k0: int, n0: int, v0: int, cs: seq<Command>, k: int, n: int, v: int,
                  c: Command, ds: seq<Command>, k1: int, n1: int, v1: int)
    requires After(k0, n0, v0, cs, k, n, v) && (k1, n1) == Settings(k, n, c) && ds == cs + [c]
    requires if !Disturbs(c) then v1 == v else Outcome(c.newVal, k1, n1, v1)
    ensures After(k0, n0, v0, ds, k1, n1, v1)
  {
    assert ds[..|cs|] == cs;
    if forall i :: 0 <= i < |ds| ==> !Disturbs(ds[i]) {
      assert !Disturbs(ds[|cs|]);
      assert forall i :: 0 <= i < |cs| ==> cs[i] == ds[i];
    }
    forall j | LastDisturbance(ds, j)
      ensures Outcome(ds[j].newVal, LastGain(k0, ds[..j]), LastLength(n0, ds[..j]), v1)
    {
      if j < |cs| {
        assert !Disturbs(ds[|cs|]) && ds[..j] == cs[..j] && ds[j] == cs[j];
        assert forall m :: j < m < |cs| ==> cs[m] == ds[m];
        assert LastDisturbance(cs, j);
      }
    }
  }

  lemma AfterNone(k: int, n: int, v: int, cs: seq<Command>)
    ensures After(k, n, v, cs[..0], k, n, v)
  {
  }

  lemma AfterPrefix(k0: int, n0: int, v0: int, cs: seq<Command>, i: nat, k: int, n: int, v: int,
                    k1: int, n1: int, v1: int)
    requires i < |cs| && After(k0, n0, v0, cs[..i], k, n, v) && (k1, n1) == Settings(k, n, cs[i])
    requires if !Disturbs(cs[i]) then v1 == v else Outcome(cs[i].newVal, k1, n1, v1)
    ensures After(k0, n0, v0, cs[..i + 1], k1, n1, v1)
  {
    assert cs[..i + 1] == cs[..i] + [cs[i]];
    AfterNext(k0, n0, v0, cs[..i], k, n, v, cs[i], cs[..i + 1], k1, n1, v1);
  }

  /**
   Where the loop leaves a value v0 that fits an int: at 0 for gains 100 to 199 and at rest for
   gains 1 to 99, given enough steps; for gains up to 100 never beyond v0 or across zero.
   */
  predicate Regulated(v0: int, k: int, nlen: int, v: int) {
    && (100 <= k <= 199 && nlen >= Abs(v0) ==> v == 0)
    && (1 <= k <= 99 && nlen >= Abs(v0) ==> Abs(v) * k < 100)
    && (k == 200 ==> Abs(v) == Abs(v0))
    && (1 <= k <= 100 ==> Abs(v) <= Abs(v0) && (v0 >= 0 ==> v >= 0) && (v0 <= 0 ==> v <= 0))
  }

  /** What holds of the value after some steps. */
  predicate Progress(v0: int, k: int, v: int, steps: nat) {
    && InInt(v)
    && (100 <= k <= 199 ==> Abs(v) + steps <= Abs(v0) || v == 0)
    && (k <= 99 ==> Abs(v) * k < 100 || Abs(v) + steps <= Abs(v0))
    && (k == 200 ==> Abs(v) == Abs(v0))
  }

  lemma ProgressStep(v0: int, k: int, v: int, steps: nat)
    requires InInt(v0) && 1 <= k <= 200 && Progress(v0, k, v, steps)
    ensures Progress(v0, k, Step(v, k), steps + 1)
  {
    if k == 200 {
      Swings(v);
    } else if k >= 100 {
      Overshoots(v, k);
    } else {
      Approaches(v, k);
    }
  }

  lemma {:induction false} ProgressAlways(v0: int, k: int, n: nat)
    requires InInt(v0) && 1 <= k <= 200
    ensures Progress(v0, k, Iterate(v0, k, n), n)
  {
    if n > 0 {
      ProgressAlways(v0, k, n - 1);
      ProgressStep(v0, k, Iterate(v0, k, n - 1), n - 1);
    }
  }

  /** With a gain of 100 to 199 percent nothing is left one step after 1 or -1. */
  lemma {:induction false} NothingAfterNear(v0: int, k: int, j: nat, m: nat)
    requires InInt(v0) && 100 <= k <= 199 && Near(v0, k, j) && j < m
    ensures Iterate(v0, k, m) == 0
    decreases m
  {
    ProgressAlways(v0, k, m - 1);
    I32Is(Iterate(v0, k, m - 1));
    if j < m - 1 {
      NothingAfterNear(v0, k, j, m - 1);
    }
    Overshoots(Iterate(v0, k, m - 1), k);
  }

  /** Where the loop ends is where the value has settled. */
  lemma RanMeans(v0: int, k: int, nlen: int, v: int, steps: nat)
    requires InInt(v0) && RanFor(v0, k, nlen, v, steps)
    ensures Regulated(v0, k, nlen, v)
  {
    if 1 <= k <= 200 {
      ProgressAlways(v0, k, steps);
      I32Is(v);
      if k <= 100 {
        ApproachesAlways(v0, k, 0, steps);
      }
      if 100 <= k <= 199 && Touched(v0, k, steps) {
        var j: nat :| j < steps && Near(v0, k, j);
        NothingAfterNear(v0, k, j, steps);
      }
    }
  }
}
