/**
 The pluggable number translator of Tasks/load_module/plugin: master.c picks a radix from the first
 characters and calls the str_translate of dec.c, oct.c or hex.c on the rest.

 The long accumulator of a slave wraps around in 64 bits; the master keeps its low 32 bits.
 */
module TranslateModel {
  import opened Common

  const EINVAL: int := 22
  const EEXIST: int := 17
  const ENOEXEC: int := 8
  const BUFFER: nat := 80

  datatype Radix = Dec | Oct | Hex

  function Base(r: Radix): nat {
    match r case Dec => 10 case Oct => 8 case Hex => 16
  }

  /** Multiplication, division and remainder by the base. */
  function Scale(r: Radix, x: nat): nat {
    match r case Dec => x * 10 case Oct => x * 8 case Hex => x * 16
  }

  function Quotient(r: Radix, x: nat): nat {
    match r case Dec => x / 10 case Oct => x / 8 case Hex => x / 16
  }

  function Remainder(r: Radix, x: nat): nat {
    match r case Dec => x % 10 case Oct => x % 8 case Hex => x % 16
  }

  /** The index `ind` of the slave, which the master also uses as the number of characters to skip. */
  function Ind(r: Radix): nat {
    match r case Dec => 0 case Oct => 1 case Hex => 2
  }

  function Prefix(r: Radix): string {
    match r case Dec => "" case Oct => "0" case Hex => "0x"
  }

  /** What a character means as a digit, by its code. */
  function Digit(r: Radix, c: char): (v: Option<nat>)
    ensures v.Some? ==> v.value < Base(r)
  {
    if '0' <= c <= '9' && c as nat - '0' as nat < Base(r) then Some(c as nat - '0' as nat)
    else if r == Hex && 'A' <= c <= 'F' then Some(c as nat - 'A' as nat + 10)
    else if r == Hex && 'a' <= c <= 'f' then Some(c as nat - 'a' as nat + 10)
    else None
  }

  // ------------------------------------------------------------------ translation

  predicate AllDigits(r: Radix, s: string) {
    forall i :: 0 <= i < |s| ==> Digit(r, s[i]).Some?
  }

  /** The number that a string of digits denotes. */
  function Value(r: Radix, s: string): nat
    requires AllDigits(r, s)
  {
    if s == "" then 0 else Scale(r, Value(r, s[..|s| - 1])) + Digit(r, s[|s| - 1]).value
  }

  /** str_translate of a slave. */
  function Slave(r: Radix, s: string): int {
    if AllDigits(r, s) then I64(Value(r, s)) else -EINVAL
  }

  /** The radix the master chooses; an empty text counts as decimal, since strchr finds the NUL. */
  function Dispatch(s: string): Option<Radix> {
    if s == "" then Some(Dec)
    else if s[0] == '0' then (if |s| > 1 && s[1] == 'x' then Some(Hex) else Some(Oct))
    else if '1' <= s[0] <= '9' then Some(Dec)
    else None
  }

  /** The value that the master computes for a text. */
  function Translated(s: string): int {
    match Dispatch(s)
    case None => -EINVAL
    case Some(r) => if Ind(r) <= |s| then I32(Slave(r, s[Ind(r)..])) else -EINVAL
  }

  /**
   The characters skipped are exactly the prefix of the radix chosen. An invalid digit behind them
   gives an error, valid ones the low 32 bits of their value.
   */
  lemma TranslationMeans(s: string, r: Radix)
    requires Dispatch(s) == Some(r)
    ensures Ind(r) <= |s| && s[..Ind(r)] == Prefix(r)
    ensures !AllDigits(r, s[Ind(r)..]) ==> Translated(s) == -EINVAL
    ensures AllDigits(r, s[Ind(r)..]) ==> Translated(s) == I32(Value(r, s[Ind(r)..]))
  {
    if AllDigits(r, s[Ind(r)..]) {
      I32OfI64(Value(r, s[Ind(r)..]));
    }
  }

  lemma I32OfI64(x: int)
    ensures I32(I64(x)) == I32(x)
  {
    var k := (x - I64(x)) / TWO_64;
    assert x == I64(x) + k * TWO_64;
    I32WrapAround(I64(x), k * TWO_32);
  }

  lemma I32WrapAround(x: int, k: int)
    ensures I32(x + k * TWO_32) == I32(x)
  {
  }

  /** The digits of each radix, and no other characters, have a value. */
  lemma DigitsAre(r: Radix, c: char)
    ensures Digit(r, c).Some? <==>
            c in (match r case Dec => "0123456789" case Oct => "01234567" case Hex => "0123456789ABCDEFabcdef")
  {
    var s := match r case Dec => "0123456789" case Oct => "01234567" case Hex => "0123456789ABCDEFabcdef";
    if Digit(r, c).Some? {
      var v := Digit(r, c).value;
      var k := if c >= 'a' then v + 6 else v;
      assert s[k] == c;
    }
  }

  /** A text that begins with anything but a digit is refused. */
  lemma OtherTextsRefused(s: string)
    ensures Dispatch(s).None? <==> s != "" && s[0] !in "0123456789"
    ensures s != "" && s[0] !in "0123456789" ==> Translated(s) == -22
  {
    if s != "" { DigitsAre(Dec, s[0]); }
  }

  /** The 32-bit result differs from the number by a multiple of 2^32. */
  lemma I32Means(x: int)
    ensures -TWO_31 <= I32(x) < TWO_31 && exists k: int :: x == I32(x) + k * TWO_32
  {
    var k := (x - I32(x)) / TWO_32;
    assert x == I32(x) + k * TWO_32;
  }

  // ------------------------------------------------------------------ numerals

  function DigitChar(upper: bool, v: nat): char
    requires v < 16
  {
    if v < 10 then '0' + v as char else (if upper then 'A' else 'a') + (v - 10) as char
  }

  /** The shortest numeral of a number, most significant digit first. */
  function Numeral(r: Radix, upper: bool, n: nat): (s: string)
    ensures s != ""
  {
    if n < Base(r) then [DigitChar(upper, n)]
    else Numeral(r, upper, Quotient(r, n)) + [DigitChar(upper, Remainder(r, n))]
  }

  lemma DigitOfChar(r: Radix, upper: bool, v: nat)
    requires v < Base(r)
    ensures Digit(r, DigitChar(upper, v)) == Some(v)
  {
  }

  lemma Append(r: Radix, s: string, c: char)
    requires AllDigits(r, s) && Digit(r, c).Some?
    ensures AllDigits(r, s + [c]) && Value(r, s + [c]) == Scale(r, Value(r, s)) + Digit(r, c).value
  {
    var t := s + [c];
    assert t[..|t| - 1] == s;
  }

  /** Reading a numeral gives the number back. */
  lemma {:induction false} ValueOfNumeral(r: Radix, upper: bool, n: nat)
    ensures AllDigits(r, Numeral(r, upper, n)) && Value(r, Numeral(r, upper, n)) == n
    decreases n
  {
    if n < Base(r) {
      DigitOfChar(r, upper, n);
      Append(r, "", DigitChar(upper, n));
      assert "" + [DigitChar(upper, n)] == [DigitChar(upper, n)];
    } else {
      ValueOfNumeral(r, upper, Quotient(r, n));
      DigitOfChar(r, upper, Remainder(r, n));
      Append(r, Numeral(r, upper, Quotient(r, n)), DigitChar(upper, Remainder(r, n)));
    }
  }

  lemma NumeralStep(r: Radix, upper: bool, q: nat, v: nat)
    requires q > 0 && v < Base(r)
    ensures Numeral(r, upper, Scale(r, q) + v) == Numeral(r, upper, q) + [DigitChar(upper, v)]
  {
    assert Quotient(r, Scale(r, q) + v) == q;
    assert Remainder(r, Scale(r, q) + v) == v;
  }

  predicate SameDigits(r: Radix, s: string, t: string) {
    |s| == |t| && forall i :: 0 <= i < |s| ==> Digit(r, s[i]) == Digit(r, t[i])
  }

  /** Reading one more digit appends it to the numeral of the value so far. */
  lemma NumeralAppend(r: Radix, s: string, c: char)
    requires AllDigits(r, s) && Digit(r, c).Some? && Value(r, s) > 0
    requires SameDigits(r, s, Numeral(r, true, Value(r, s)))
    ensures AllDigits(r, s + [c]) && SameDigits(r, s + [c], Numeral(r, true, Value(r, s + [c])))
  {
    var v := Digit(r, c).value;
    Append(r, s, c);
    DigitOfChar(r, true, v);
    NumeralStep(r, true, Value(r, s), v);
  }

  /** Every digit string without leading zeros is the numeral of its value, up to the case of its letters. */
  lemma {:induction false} NumeralOfValue(r: Radix, s: string)
    requires AllDigits(r, s) && s != "" && (|s| > 1 ==> s[0] != '0')
    ensures SameDigits(r, s, Numeral(r, true, Value(r, s)))
    ensures s[0] != '0' ==> Value(r, s) > 0
    decreases |s|
  {
    var front, c := s[..|s| - 1], s[|s| - 1];
    Append(r, front, c);
    assert s == front + [c];
    if front == "" {
      DigitOfChar(r, true, Digit(r, c).value);
    } else {
      assert front[0] == s[0];
      NumeralOfValue(r, front);
      NumeralAppend(r, front, c);
    }
  }

  function Limit(r: Radix, e: nat): nat {
    if e == 0 then 1 else Scale(r, Limit(r, e - 1))
  }

  /** A number below the e-th power of the base has at most e digits. */
  lemma {:induction false} NumeralLength(r: Radix, upper: bool, n: nat, e: nat)
    requires e > 0 && n < Limit(r, e)
    ensures |Numeral(r, upper, n)| <= e
    decreases e
  {
    if n >= Base(r) {
      assert Limit(r, 1) == Base(r);
      assert e > 1;
      assert Quotient(r, n) < Limit(r, e - 1);
      NumeralLength(r, upper, Quotient(r, n), e - 1);
    }
  }

  /** A numeral of a positive number starts with a digit other than 0. */
  lemma {:induction false} NumeralStart(r: Radix, upper: bool, n: nat)
    ensures var c := Numeral(r, upper, n)[0];
            c != 'x' && (n > 0 ==> c != '0') && (r == Dec && n > 0 ==> '1' <= c <= '9')
    decreases n
  {
    if n >= Base(r) {
      assert Quotient(r, n) > 0;
      NumeralStart(r, upper, Quotient(r, n));
    }
  }

  /** The spellings of a number that the system call is there to read. */
  function Spelling(r: Radix, upper: bool, n: nat): string {
    Prefix(r) + Numeral(r, upper, n)
  }

  /** The text of a number goes to its own slave; only the decimal zero is read as an empty octal number. */
  lemma DispatchSpelling(r: Radix, upper: bool, n: nat)
    ensures Dispatch(Spelling(r, upper, n)) == Some(if r == Dec && n == 0 then Oct else r)
  {
    NumeralStart(r, upper, n);
    var s, t := Spelling(r, upper, n), Numeral(r, upper, n);
    if r == Dec {
      assert s == t;
    } else if r == Oct {
      assert s[1] == t[0];
    }
  }

  /**
   The decimal text, `0` with octal digits and `0x` with hexadecimal digits of either case all
   translate back to the low 32 bits of the number, hence to the number exactly when it is below 2^31.
   */
  lemma SpellingTranslates(r: Radix, upper: bool, n: nat)
    ensures Translated(Spelling(r, upper, n)) == I32(n)
    ensures Translated(Spelling(r, upper, n)) == n <==> n < TWO_31
  {
    if r == Dec && n == 0 {
      DecimalZero(upper);
    } else {
      SpellingRead(r, upper, n);
    }
  }

  lemma SpellingRead(r: Radix, upper: bool, n: nat)
    requires r != Dec || n > 0
    ensures Translated(Spelling(r, upper, n)) == I32(n)
  {
    var s := Spelling(r, upper, n);
    DispatchSpelling(r, upper, n);
    TranslationMeans(s, r);
    assert s[Ind(r)..] == Numeral(r, upper, n);
    ValueOfNumeral(r, upper, n);
  }

  lemma DecimalZero(upper: bool)
    ensures Translated(Spelling(Dec, upper, 0)) == 0
  {
    var s := Spelling(Dec, upper, 0);
    assert s == "0" && s[1..] == "";
    TranslationMeans(s, Oct);
  }

  lemma BigLimit(r: Radix)
    ensures Limit(r, 11) >= TWO_31
  {
    match r
    case Dec => assert Limit(Dec, 11) >= TWO_31;
    case Oct => assert Limit(Oct, 11) >= TWO_31;
    case Hex => assert Limit(Hex, 11) >= TWO_31;
  }

  /** Every number below 2^31 fits the master's buffer of 80 characters in all spellings. */
  lemma SpellingFits(r: Radix, upper: bool, n: nat)
    requires n < TWO_31
    ensures |Spelling(r, upper, n)| < BUFFER
  {
    BigLimit(r);
    NumeralLength(r, upper, n, 11);
  }

  // ------------------------------------------------------------------ C strings

  /** The C string at the front of a buffer. */
  function CString(s: string): string {
    if s == "" || s[0] == '\0' then "" else [s[0]] + CString(s[1..])
  }

  lemma {:induction false} CStringEnds(s: string)
    ensures |CString(s)| <= |s| && CString(s) == s[..|CString(s)|]
    ensures '\0' !in CString(s)
    ensures |CString(s)| < |s| ==> s[|CString(s)|] == '\0'
  {
    if s != "" && s[0] != '\0' {
      var k := |CString(s[1..])|;
      CStringEnds(s[1..]);
      assert s[..k + 1] == [s[0]] + s[1..][..k];
    }
  }

  // ------------------------------------------------------------------ the system call over time

  /** One system call: its text, and what loading its slave, with none loaded yet, and unloading it return. */
  datatype Call = Call(text: string, load: int, unload: int)

  /**
   sys_init_module for slave `r`. All slaves export str_translate: the kernel refuses a second one,
   as a module that is there already or as one whose symbol another module owns.
   */
  function LoadSlave(loaded: Option<Radix>, r: Radix, load: int): int {
    if load < 0 then load
    else if loaded == Some(r) then -EEXIST
    else if loaded.Some? then -ENOEXEC
    else load
  }

  /** The slave left loaded, if any, and the result of a call. */
  function SysCall(loaded: Option<Radix>, c: Call): (Option<Radix>, int) {
    match Dispatch(c.text)
    case None => (loaded, -EINVAL)
    case Some(r) =>
      if LoadSlave(loaded, r, c.load) < 0 then (loaded, LoadSlave(loaded, r, c.load))
      else if Translated(c.text) < 0 then (Some(r), Translated(c.text))
      else if c.unload < 0 then (Some(r), c.unload)
      else (None, Translated(c.text))
  }

  /** The module loaded at the end and the results of a sequence of calls. */
  function SysCalls(loaded: Option<Radix>, cs: seq<Call>): (Option<Radix>, seq<int>)
    decreases |cs|
  {
    if cs == [] then (loaded, [])
    else
      var (next, code) := SysCall(loaded, cs[0]);
      var (last, codes) := SysCalls(next, cs[1..]);
      (last, [code] + codes)
  }

  /** The slave can be loaded, and then its text has an invalid digit or too large a value, or it cannot be unloaded. */
  predicate LeavesSlave(c: Call) {
    var r := Dispatch(c.text);
    r.Some? && c.load >= 0 && Ind(r.value) <= |c.text| &&
    var digits := c.text[Ind(r.value)..];
    !AllDigits(r.value, digits) || U32(Value(r.value, digits)) >= TWO_31 || c.unload < 0
  }

  /** A call without a slave loaded before leaves its own loaded exactly under that condition. */
  lemma LeavesSlaveIff(c: Call)
    ensures SysCall(None, c).0.Some? <==> LeavesSlave(c)
    ensures LeavesSlave(c) ==> SysCall(None, c).0 == Dispatch(c.text) && SysCall(None, c).1 < 0
  {
    if Dispatch(c.text).Some? {
      TranslationMeans(c.text, Dispatch(c.text).value);
    }
  }

  /**
   What a call returns with no slave loaded before: the number, if nothing goes wrong, and otherwise
   -EINVAL, the code of loading, a negative value read, or the code of unloading.
   */
  lemma SysCallCodes(c: Call)
    ensures SysCall(None, c).1 >= 0 <==> Dispatch(c.text).Some? && c.load >= 0 && !LeavesSlave(c)
    ensures SysCall(None, c).1 >= 0 ==> SysCall(None, c).1 == Translated(c.text)
    ensures Dispatch(c.text).None? ==> SysCall(None, c).1 == -22
    ensures Dispatch(c.text).Some? && c.load < 0 ==> SysCall(None, c) == (None, c.load)
    ensures LeavesSlave(c) ==>
              SysCall(None, c).1 == if Translated(c.text) < 0 then Translated(c.text) else c.unload
  {
    LeavesSlaveIff(c);
    if Dispatch(c.text).Some? {
      TranslationMeans(c.text, Dispatch(c.text).value);
    }
  }

  /** Once a slave is loaded, every later call fails and the slave stays. */
  lemma {:induction false} StuckForever(loaded: Option<Radix>, cs: seq<Call>)
    requires loaded.Some?
    ensures SysCalls(loaded, cs).0 == loaded && |SysCalls(loaded, cs).1| == |cs|
    ensures forall i :: 0 <= i < |cs| ==> SysCalls(loaded, cs).1[i] < 0
    decreases |cs|
  {
    if cs != [] {
      StuckForever(loaded, cs[1..]);
    }
  }

  /** From the first call on that leaves its slave loaded, every call fails, whatever its text. */
  lemma {:induction false} BlockedFrom(cs: seq<Call>, j: nat)
    requires j < |cs| && LeavesSlave(cs[j]) && forall i :: 0 <= i < j ==> !LeavesSlave(cs[i])
    ensures SysCalls(None, cs).0 == Dispatch(cs[j].text) && |SysCalls(None, cs).1| == |cs|
    ensures forall i :: j <= i < |cs| ==> SysCalls(None, cs).1[i] < 0
    decreases j
  {
    LeavesSlaveIff(cs[0]);
    if j == 0 {
      StuckForever(SysCall(None, cs[0]).0, cs[1..]);
    } else {
      BlockedFrom(cs[1..], j - 1);
    }
  }

  /** No slave is left loaded at the end of a sequence of calls exactly when none of them meets the condition. */
  lemma {:induction false} CleanIff(cs: seq<Call>)
    ensures SysCalls(None, cs).0.None? <==> forall i :: 0 <= i < |cs| ==> !LeavesSlave(cs[i])
    decreases |cs|
  {
    if cs != [] {
      LeavesSlaveIff(cs[0]);
      if LeavesSlave(cs[0]) {
        StuckForever(SysCall(None, cs[0]).0, cs[1..]);
      } else {
        CleanIff(cs[1..]);
        assert forall i :: 0 < i < |cs| ==> cs[i] == cs[1..][i - 1];
        assert forall i :: 0 <= i < |cs| - 1 ==> cs[1..][i] == cs[i + 1];
      }
    }
  }

  /** The text 08 has no octal value; after it the text 7, fine on its own, is refused. */
  lemma EightIsNoOctalDigit()
    ensures SysCall(None, Call("08", 0, 0)) == (Some(Oct), -EINVAL)
    ensures SysCall(None, Call("7", 0, 0)) == (None, 7)
    ensures SysCall(Some(Oct), Call("7", 0, 0)) == (Some(Oct), -ENOEXEC)
  {
    TranslationMeans("08", Oct);
    assert "08"[1..][0] == '8';
    SpellingTranslates(Dec, true, 7);
    assert Spelling(Dec, true, 7) == "7";
  }

  /** A number below 2^31 in one of its spellings. */
  datatype Spelled = Spelled(r: Radix, upper: bool, n: nat)

  /** A call whose text spells a number and whose slave can be loaded and unloaded. */
  predicate Spells(c: Call, x: Spelled) {
    x.n < TWO_31 && c.text == Spelling(x.r, x.upper, x.n) && c.load >= 0 && c.unload >= 0
  }

  /** Calls with spelled numbers give the numbers, one after the other, and leave no slave behind. */
  lemma {:induction false} NumbersInOrder(cs: seq<Call>, xs: seq<Spelled>)
    requires |cs| == |xs| && forall i :: 0 <= i < |cs| ==> Spells(cs[i], xs[i])
    ensures SysCalls(None, cs).0 == None && |SysCalls(None, cs).1| == |cs|
    ensures forall i :: 0 <= i < |cs| ==> SysCalls(None, cs).1[i] == xs[i].n
    decreases |cs|
  {
    if cs != [] {
      NumberOfCall(cs[0], xs[0]);
      NumbersInOrder(cs[1..], xs[1..]);
    }
  }

  lemma NumberOfCall(c: Call, x: Spelled)
    requires Spells(c, x)
    ensures SysCall(None, c) == (None, x.n)
  {
    DispatchSpelling(x.r, x.upper, x.n);
    SpellingTranslates(x.r, x.upper, x.n);
  }
}

/** The slaves' loops and the master's system call. */
module Plugin {
  import opened Common
  import opened TranslateModel

  const DEC_DIGITS: string := "0123456789"
  const OCT_DIGITS: string := "01234567"
  const HEX_UPPER: string := "0123456789ABCDEF"
  const HEX_LOWER: string := "0123456789abcdef"

  /** The kernel's strchr for a character other than NUL, as an index, or -1. */
  method StrChr(table: string, c: char) returns (k: int)
    ensures -1 <= k < |table|
    ensures k >= 0 ==> table[k] == c
    ensures k < 0 ==> c !in table
  {
    k := 0;
    while k < |table|
      invariant 0 <= k <= |table| && c !in table[..k]
    {
      if table[k] == c {
        return;
      }
      k := k + 1;
    }
    k := -1;
  }

  /** The digit tables hold the digits in order. */
  lemma TablesInOrder(v: nat)
    requires v < 16
    ensures v < 8 ==> OCT_DIGITS[v] == DigitChar(true, v)
    ensures v < 10 ==> DEC_DIGITS[v] == DigitChar(true, v)
    ensures HEX_UPPER[v] == DigitChar(true, v) && HEX_LOWER[v] == DigitChar(false, v)
  {
  }

  /** A character found in the table of a radix is the digit of its place; one that is not found is no digit. */
  lemma FoundMeans(r: Radix, upper: bool, table: string, c: char, k: int)
    requires table == (if r == Dec then DEC_DIGITS else if r == Oct then OCT_DIGITS
                       else if upper then HEX_UPPER else HEX_LOWER)
    requires -1 <= k < |table| && (if k < 0 then c !in table else table[k] == c)
    ensures k >= 0 ==> Digit(r, c) == Some(k)
    ensures k < 0 && Digit(r, c).Some? ==> r == Hex && (if upper then 'a' <= c <= 'f' else 'A' <= c <= 'F')
  {
    if k >= 0 {
      TablesInOrder(k);
    } else if Digit(r, c).Some? {
      TablesInOrder(Digit(r, c).value);
    }
  }

  /** One more digit in the 64-bit accumulator. */
  lemma Accumulate(r: Radix, s: string, c: char, res: int, v: nat)
    requires AllDigits(r, s) && res == I64(Value(r, s)) && Digit(r, c) == Some(v)
    ensures AllDigits(r, s + [c])
    ensures r == Dec ==> I64(res * 10 + v) == I64(Value(r, s + [c]))
    ensures r == Oct ==> I64(res * 8 + v) == I64(Value(r, s + [c]))
    ensures r == Hex ==> I64(res * 16 + v) == I64(Value(r, s + [c]))
  {
    Append(r, s, c);
    var x := Value(r, s);
    var k := WrapCount(x);
    match r
    case Dec => WrapAround(res * 10 + v, 10 * k);
    case Oct => WrapAround(res * 8 + v, 8 * k);
    case Hex => WrapAround(res * 16 + v, 16 * k);
  }

  lemma WrapCount(x: int) returns (k: int)
    ensures x == I64(x) + k * TWO_64
  {
    k := (x - I64(x)) / TWO_64;
  }

  lemma WrapAround(x: int, k: int)
    ensures I64(x + k * TWO_64) == I64(x)
  {
  }

  /** A NUL-terminated string from `start` to `end`. */
  ghost predicate Terminated(buf: array<char>, start: nat, end: nat)
    reads buf
  {
    start <= end < buf.Length && buf[end] == '\0' && forall i :: start <= i < end ==> buf[i] != '\0'
  }

  method DecTranslate(buf: array<char>, start: nat, ghost end: nat) returns (res: int)
    requires Terminated(buf, start, end)
    ensures res == Slave(Dec, buf[start..end])
  {
    res := 0;
    var p := start;
    while buf[p] != '\0'
      invariant start <= p <= end && AllDigits(Dec, buf[start..p]) && res == I64(Value(Dec, buf[start..p]))
      decreases end - p
    {
      var s := StrChr(DEC_DIGITS, buf[p]);
      FoundMeans(Dec, true, DEC_DIGITS, buf[p], s);
      assert buf[start..end][p - start] == buf[p];
      if s < 0 {
        return -EINVAL;
      }
      Accumulate(Dec, buf[start..p], buf[p], res, s);
      assert buf[start..p + 1] == buf[start..p] + [buf[p]];
      res := I64(res * 10 + s);
      p := p + 1;
    }
  }

  method OctTranslate(buf: array<char>, start: nat, ghost end: nat) returns (res: int)
    requires Terminated(buf, start, end)
    ensures res == Slave(Oct, buf[start..end])
  {
    res := 0;
    var p := start;
    while buf[p] != '\0'
      invariant start <= p <= end && AllDigits(Oct, buf[start..p]) && res == I64(Value(Oct, buf[start..p]))
      decreases end - p
    {
      var s := StrChr(OCT_DIGITS, buf[p]);
      FoundMeans(Oct, true, OCT_DIGITS, buf[p], s);
      assert buf[start..end][p - start] == buf[p];
      if s < 0 {
        return -EINVAL;
      }
      Accumulate(Oct, buf[start..p], buf[p], res, s);
      assert buf[start..p + 1] == buf[start..p] + [buf[p]];
      res := I64(res * 8 + s);
      p := p + 1;
    }
  }

  method HexTranslate(buf: array<char>, start: nat, ghost end: nat) returns (res: int)
    requires Terminated(buf, start, end)
    ensures res == Slave(Hex, buf[start..end])
  {
    res := 0;
    var p := start;
    while buf[p] != '\0'
      invariant start <= p <= end && AllDigits(Hex, buf[start..p]) && res == I64(Value(Hex, buf[start..p]))
      decreases end - p
    {
      var s := StrChr(HEX_UPPER, buf[p]);
      FoundMeans(Hex, true, HEX_UPPER, buf[p], s);
      assert buf[start..end][p - start] == buf[p];
      if s < 0 {
        s := StrChr(HEX_LOWER, buf[p]);
        FoundMeans(Hex, false, HEX_LOWER, buf[p], s);
        if s < 0 {
          return -EINVAL;
        }
      }
      Accumulate(Hex, buf[start..p], buf[p], res, s);
      assert buf[start..p + 1] == buf[start..p] + [buf[p]];
      res := I64(res * 16 + s);
      p := p + 1;
    }
  }

  /** The static state of the master: its text buffer and the slave module that is loaded. */
  class Master {
    const bufMsg: array<char>
    var loaded: Option<Radix>

    constructor ()
      ensures bufMsg.Length == BUFFER && loaded == None
    {
      bufMsg := new char[BUFFER];
      loaded := None;
    }

    /** copy_from_user and the terminating NUL. */
    method CopyText(buf: string) returns (ghost end: nat)
      requires |buf| < bufMsg.Length
      modifies bufMsg
      ensures Terminated(bufMsg, 0, end) && bufMsg[..end] == CString(buf)
    {
      forall i | 0 <= i < |buf| {
        bufMsg[i] := buf[i];
      }
      bufMsg[|buf|] := '\0';
      end := |CString(buf)|;
      CStringEnds(buf);
      assert bufMsg[..end] == buf[..end];
      assert forall i :: 0 <= i < end ==> bufMsg[i] == CString(buf)[i];
    }

    method SysStrTranslate(buf: string, load: int, unload: int) returns (code: int)
      requires |buf| < bufMsg.Length
      modifies this, bufMsg
      ensures (loaded, code) == SysCall(old(loaded), Call(CString(buf), load, unload))
    {
      ghost var text := CString(buf);
      ghost var end := CopyText(buf);
      var ind: Radix;
      assert forall i :: 0 <= i < end ==> bufMsg[i] == text[i];
      if bufMsg[0] == '0' {
        if bufMsg[1] == 'x' {
          ind := Hex;
        } else {
          ind := Oct;
        }
      } else {
        var k := StrChr("123456789", bufMsg[0]);
        assert forall v :: 0 <= v < 9 ==> "123456789"[v] == '1' + v as char;
        if k >= 0 || bufMsg[0] == '\0' {
          ind := Dec;
        } else {
          return -EINVAL;
        }
      }
      TranslationMeans(text, ind);
      var res := LoadSlave(loaded, ind, load);
      if res < 0 {
        return res;
      }
      loaded := Some(ind);
      assert bufMsg[Ind(ind)..end] == text[Ind(ind)..];
      match ind {
        case Dec => res := DecTranslate(bufMsg, Ind(ind), end);
        case Oct => res := OctTranslate(bufMsg, Ind(ind), end);
        case Hex => res := HexTranslate(bufMsg, Ind(ind), end);
      }
      var trs := I32(res);
      if trs < 0 {
        return trs;
      }
      if unload < 0 {
        return unload;
      }
      loaded := None;
      code := trs;
    }
  }
}
