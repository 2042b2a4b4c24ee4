/**
 The configurable channels of Tasks/+TASKS/confm/confm.c. A configuration text of `chan=name`
 lines registers one device per line, each with its own block-chained queue.
 */
module ConfigText {
  import opened Common

  const NUL: char := '\0'

  predicate IsDelim(c: char) {
    c == ' ' || c == '\t' || c == '='
  }

  /** Position of the first `c` in `s`, or the length of `s`. */
  function Find(s: string, c: char): (k: nat)
    ensures k <= |s|
  {
    if s == [] || s[0] == c then 0 else 1 + Find(s[1..], c)
  }

  /** Position of the first delimiter in `s`, or the length of `s`. */
  function FindDelim(s: string): (k: nat)
    ensures k <= |s|
  {
    if s == [] || IsDelim(s[0]) then 0 else 1 + FindDelim(s[1..])
  }

  function SkipSpaces(s: string): (r: string)
    ensures |r| <= |s|
  {
    if s != [] && s[0] == ' ' then SkipSpaces(s[1..]) else s
  }

  lemma {:induction false} FindIs(s: string, c: char, k: nat)
    requires k <= |s| && (k < |s| ==> s[k] == c) && forall i :: 0 <= i < k ==> s[i] != c
    ensures Find(s, c) == k
  {
    if k > 0 { FindIs(s[1..], c, k - 1); }
  }

  lemma {:induction false} FindDelimIs(s: string, k: nat)
    requires k <= |s| && (k < |s| ==> IsDelim(s[k])) && forall i :: 0 <= i < k ==> !IsDelim(s[i])
    ensures FindDelim(s) == k
  {
    if k > 0 { FindDelimIs(s[1..], k - 1); }
  }

  lemma {:induction false} FindDelimMeans(s: string)
    ensures var k := FindDelim(s);
            (k < |s| ==> IsDelim(s[k])) && forall i :: 0 <= i < k ==> !IsDelim(s[i])
  {
    if s != [] && !IsDelim(s[0]) { FindDelimMeans(s[1..]); }
  }

  /** What follows the last delimiter. */
  function LastField(s: string): string {
    var k := FindDelim(s);
    if k == |s| then s else LastField(s[k + 1..])
  }

  /** The last field starts after the last delimiter, or is everything when there is none. */
  lemma {:induction false} LastFieldIsLast(s: string) returns (j: nat)
    ensures j <= |s| && LastField(s) == s[j..]
    ensures j > 0 ==> IsDelim(s[j - 1])
    ensures forall i :: j <= i < |s| ==> !IsDelim(s[i])
  {
    var k := FindDelim(s);
    FindDelimMeans(s);
    if k == |s| {
      j := 0;
    } else {
      var rest := s[k + 1..];
      var j' := LastFieldIsLast(rest);
      j := k + 1 + j';
      assert rest[j'..] == s[j..];
      assert forall i :: j <= i < |s| ==> s[i] == rest[i - k - 1];
    }
  }

  /** How one line without its leading spaces is understood. NoField is a `chan` key that ends the line. */
  datatype Line = Blank | Illegal(key: string) | NoField | Chan(name: string)

  /** Empty lines and comments. */
  predicate IsBlank(line: string) {
    line == [] || line[0] == '#'
  }

  function Classify(line: string): Line {
    if IsBlank(line) then Blank
    else
      var k := FindDelim(line);
      if line[..k] != "chan" then Illegal(line[..k])
      else if k == |line| then NoField
      else Chan(LastField(line[k + 1..]))
  }

  const ENOMEM: int := 12

  /** A call of next_dev: no room for the device, which shows before the name is looked at, or the error code. */
  datatype Attempt = NoRoom | Tried(err: int)

  /** The attempts to register a device, by the number of devices there are. */
  type Kernel = nat -> Attempt

  function Code(a: Attempt): int {
    match a
    case NoRoom => -ENOMEM
    case Tried(err) => err
  }

  /** Crash is the use of a null device name. */
  datatype Outcome = Success(names: seq<string>) | BadKey(key: string) | Failed(err: int) | Crash

  /** The first newline-terminated line without its leading spaces, and the text after it. */
  datatype Split = End | Split(line: string, rest: string)

  function FirstLine(t: string): (r: Split)
    ensures r.Split? ==> |r.rest| < |t|
  {
    var s := SkipSpaces(t);
    var e := Find(s, '\n');
    if e == |s| then End else Split(s[..e], s[e + 1..])
  }

  /** The whole text, with the devices `names` registered already. */
  function Parse(t: string, kernel: Kernel, names: seq<string>): Outcome
    decreases |t|
  {
    match FirstLine(t)
    case End => Success(names)
    case Split(line, rest) =>
      match Classify(line)
      case Blank => Parse(rest, kernel, names)
      case Illegal(key) => BadKey(key)
      case NoField => if kernel(|names|).NoRoom? then Failed(-ENOMEM) else Crash
      case Chan(name) =>
        var err := Code(kernel(|names|));
        if err != 0 then Failed(err) else Parse(rest, kernel, names + [name])
  }

  /** The newline-terminated lines that are neither blank nor comments, without leading spaces. */
  function Significant(t: string): seq<string>
    decreases |t|
  {
    match FirstLine(t)
    case End => []
    case Split(line, rest) => (if IsBlank(line) then [] else [line]) + Significant(rest)
  }

  predicate NoBlank(lines: seq<string>) {
    forall i :: 0 <= i < |lines| ==> !IsBlank(lines[i])
  }

  predicate AllChan(lines: seq<string>) {
    forall i :: 0 <= i < |lines| ==> Classify(lines[i]).Chan?
  }

  function Names(lines: seq<string>): seq<string>
    requires AllChan(lines)
  {
    if lines == [] then [] else [Classify(lines[0]).name] + Names(lines[1..])
  }

  /** The lines one after the other. */
  function Run(lines: seq<string>, kernel: Kernel, names: seq<string>): Outcome {
    if lines == [] then Success(names)
    else
      match Classify(lines[0])
      case Blank => Run(lines[1..], kernel, names)
      case Illegal(key) => BadKey(key)
      case NoField => if kernel(|names|).NoRoom? then Failed(-ENOMEM) else Crash
      case Chan(name) =>
        var err := Code(kernel(|names|));
        if err != 0 then Failed(err) else Run(lines[1..], kernel, names + [name])
  }

  /** Nothing but the significant lines matters; a last line without newline does not. */
  lemma {:induction false} ParseIsRun(t: string, kernel: Kernel, names: seq<string>)
    ensures Parse(t, kernel, names) == Run(Significant(t), kernel, names)
    decreases |t|
  {
    match FirstLine(t)
    case End =>
    case Split(line, rest) =>
      var lines := Significant(rest);
      assert ([line] + lines)[1..] == lines;
      match Classify(line)
      case Blank =>
        ParseIsRun(rest, kernel, names);
        assert Significant(t) == lines;
      case Chan(name) =>
        ParseIsRun(rest, kernel, names + [name]);
      case _ =>
  }

  lemma {:induction false} SignificantNotBlank(t: string)
    ensures NoBlank(Significant(t))
    decreases |t|
  {
    match FirstLine(t)
    case End =>
    case Split(line, rest) =>
      SignificantNotBlank(rest);
      assert Significant(t) == if IsBlank(line) then Significant(rest) else [line] + Significant(rest);
  }

  lemma {:induction false} RunSucceedsIff(lines: seq<string>, kernel: Kernel, names: seq<string>)
    requires NoBlank(lines)
    ensures Run(lines, kernel, names).Success? <==>
            AllChan(lines) && forall i :: |names| <= i < |names| + |lines| ==> Code(kernel(i)) == 0
    ensures Run(lines, kernel, names).Success? ==>
            AllChan(lines) && Run(lines, kernel, names).names == names + Names(lines)
  {
    if lines != [] && Classify(lines[0]).Chan? {
      var name, rest := Classify(lines[0]).name, lines[1..];
      RunSucceedsIff(rest, kernel, names + [name]);
      assert AllChan(lines) <==> AllChan(rest);
      assert Code(kernel(|names|)) == 0 && (forall i :: |names| + 1 <= i < |names| + |lines| ==> Code(kernel(i)) == 0)
             <==> forall i :: |names| <= i < |names| + |lines| ==> Code(kernel(i)) == 0;
      if AllChan(lines) {
        assert (names + [name]) + Names(rest) == names + Names(lines);
      }
    } else if lines != [] {
      assert !AllChan(lines);
    }
  }

  /**
   Parsing succeeds exactly when every significant line is a chan line with a delimiter and every
   registration succeeds; then the names registered are the last fields of those lines, in order.
   */
  lemma ParseSucceedsIff(t: string, kernel: Kernel)
    ensures var lines := Significant(t);
            Parse(t, kernel, []).Success? <==> AllChan(lines) && forall i :: 0 <= i < |lines| ==> Code(kernel(i)) == 0
    ensures Parse(t, kernel, []).Success? ==>
            AllChan(Significant(t)) && Parse(t, kernel, []).names == Names(Significant(t))
  {
    var lines := Significant(t);
    ParseIsRun(t, kernel, []);
    SignificantNotBlank(t);
    RunSucceedsIff(lines, kernel, []);
    assert AllChan(lines) ==> [] + Names(lines) == Names(lines);
  }

  /** The `k`-th registration is for this line and succeeds. */
  predicate Registers(line: string, kernel: Kernel, k: nat) {
    Classify(line).Chan? && Code(kernel(k)) == 0
  }

  /** How many lines at the front get their device, when `from` devices exist already. */
  function Leading(lines: seq<string>, kernel: Kernel, from: nat): (j: nat)
    ensures j <= |lines|
    ensures j < |lines| ==> !Registers(lines[j], kernel, from + j)
  {
    if lines == [] || !Registers(lines[0], kernel, from) then 0 else 1 + Leading(lines[1..], kernel, from + 1)
  }

  lemma {:induction false} LeadingRegister(lines: seq<string>, kernel: Kernel, from: nat, i: nat)
    requires i < Leading(lines, kernel, from)
    ensures Registers(lines[i], kernel, from + i)
  {
    if i > 0 {
      LeadingRegister(lines[1..], kernel, from + 1, i - 1);
    }
  }

  /**
   The first line that gets no device decides the outcome: an unknown key, a refused registration,
   or a bare `chan`, whose null name is used unless there is no room for the device.
   */
  lemma {:induction false} RunOutcome(lines: seq<string>, kernel: Kernel, names: seq<string>)
    requires NoBlank(lines)
    ensures var j := Leading(lines, kernel, |names|);
            j < |lines| ==>
              Run(lines, kernel, names) == (match Classify(lines[j])
                                            case Illegal(key) => BadKey(key)
                                            case Chan(_) => Failed(Code(kernel(|names| + j)))
                                            case _ => if kernel(|names| + j).NoRoom? then Failed(-ENOMEM) else Crash)
    ensures Leading(lines, kernel, |names|) == |lines| ==> Run(lines, kernel, names).Success?
  {
    if lines != [] && Registers(lines[0], kernel, |names|) {
      var rest, more := lines[1..], names + [Classify(lines[0]).name];
      RunOutcome(rest, kernel, more);
      assert Run(lines, kernel, names) == Run(rest, kernel, more);
      var j := Leading(rest, kernel, |more|);
      assert Leading(lines, kernel, |names|) == j + 1;
      assert j < |rest| ==> lines[j + 1] == rest[j];
    }
  }

  /** The same for a text. */
  lemma ParseOutcome(t: string, kernel: Kernel)
    ensures var lines := Significant(t);
            var j := Leading(lines, kernel, 0);
            Parse(t, kernel, []).Crash? <==> j < |lines| && Classify(lines[j]).NoField? && !kernel(j).NoRoom?
    ensures var lines := Significant(t);
            var j := Leading(lines, kernel, 0);
            Parse(t, kernel, []).BadKey? <==> j < |lines| && Classify(lines[j]).Illegal?
    ensures var lines := Significant(t);
            var j := Leading(lines, kernel, 0);
            Parse(t, kernel, []).Failed? <==>
              j < |lines| && (Classify(lines[j]).Chan? || (Classify(lines[j]).NoField? && kernel(j).NoRoom?))
  {
    var lines := Significant(t);
    ParseIsRun(t, kernel, []);
    SignificantNotBlank(t);
    RunOutcome(lines, kernel, []);
    var j := Leading(lines, kernel, 0);
    assert j < |lines| ==> !Classify(lines[j]).Blank?;
  }

  /** The text of one bare `chan` line is a concrete case. */
  lemma BareChanCrashes(kernel: Kernel)
    requires !kernel(0).NoRoom?
    ensures Parse("chan\n", kernel, []) == Crash
  {
    var t := "chan\n";
    assert SkipSpaces(t) == t;
    FindIs(t, '\n', 4);
    assert t[..4] == "chan" && t[5..] == "";
    assert FirstLine(t) == Split("chan", "");
    FindDelimIs("chan", 4);
    assert "chan"[..4] == "chan";
  }

  /** A name that can be written after `chan=`. */
  predicate Plain(name: string) {
    forall i :: 0 <= i < |name| ==> name[i] !in " \t=\n" && name[i] != '\0'
  }

  function Render(names: seq<string>): string {
    if names == [] then [] else "chan=" + names[0] + "\n" + Render(names[1..])
  }

  lemma ClassifyRendered(name: string)
    requires Plain(name)
    ensures Classify("chan=" + name) == Chan(name)
  {
    var line := "chan=" + name;
    assert line[4] == '=' && !IsDelim(line[0]) && !IsDelim(line[1]) && !IsDelim(line[2]) && !IsDelim(line[3]);
    FindDelimIs(line, 4);
    assert line[..4] == "chan" && line[5..] == name;
    FindDelimIs(name, |name|);
  }

  lemma {:induction false} SignificantRendered(names: seq<string>)
    requires forall i :: 0 <= i < |names| ==> Plain(names[i])
    ensures |Significant(Render(names))| == |names|
    ensures forall i :: 0 <= i < |names| ==> Significant(Render(names))[i] == "chan=" + names[i]
  {
    if names != [] {
      var line, rest := "chan=" + names[0], Render(names[1..]);
      var t := line + ['\n'] + rest;
      assert Render(names) == t;
      assert t[0] == 'c' && SkipSpaces(t) == t;
      assert forall i :: 0 <= i < |line| ==> t[i] == line[i] && line[i] != '\n';
      FindIs(t, '\n', |line|);
      ClassifyRendered(names[0]);
      assert t[..|line|] == line && t[|line| + 1..] == rest;
      assert FirstLine(t) == Split(line, rest);
      SignificantRendered(names[1..]);
    } else {
      assert SkipSpaces("") == "";
    }
  }

  /** Writing names out line by line and parsing the text gives the names back. */
  lemma ParseRendered(names: seq<string>, kernel: Kernel)
    requires forall i :: 0 <= i < |names| ==> Plain(names[i])
    requires forall i :: 0 <= i < |names| ==> Code(kernel(i)) == 0
    ensures Parse(Render(names), kernel, []) == Success(names)
  {
    SignificantRendered(names);
    var lines := Significant(Render(names));
    forall i | 0 <= i < |lines| ensures Classify(lines[i]) == Chan(names[i]) {
      ClassifyRendered(names[i]);
    }
    NamesOf(lines, names);
    ParseSucceedsIff(Render(names), kernel);
  }

  lemma {:induction false} NamesOf(lines: seq<string>, names: seq<string>)
    requires |lines| == |names| && forall i :: 0 <= i < |lines| ==> Classify(lines[i]) == Chan(names[i])
    ensures AllChan(lines) && Names(lines) == names
  {
    if lines != [] { NamesOf(lines[1..], names[1..]); }
  }

  // ------------------------------------------------------------------ the language of a configuration

  /** What a line can be written as; `middle` is what stands between the first separator and the name. */
  datatype Entry =
    | Nothing(indent: nat)
    | Comment(indent: nat, text: string)
    | Device(indent: nat, sep: char, middle: string, name: string)

  predicate EntryOk(e: Entry) {
    match e
    case Nothing(_) => true
    case Comment(_, text) => '\n' !in text
    case Device(_, sep, middle, name) =>
      sep in " \t=" && '\n' !in middle && (middle == "" || middle[|middle| - 1] in " \t=") && Plain(name)
  }

  predicate EntriesOk(es: seq<Entry>) {
    forall i :: 0 <= i < |es| ==> EntryOk(es[i])
  }

  function Spaces(n: nat): (s: string)
    ensures |s| == n && forall i :: 0 <= i < n ==> s[i] == ' '
  {
    seq(n, _ => ' ')
  }

  function Body(e: Entry): string {
    match e
    case Nothing(_) => ""
    case Comment(_, text) => "#" + text
    case Device(_, sep, middle, name) => "chan" + [sep] + middle + name
  }

  function Written(es: seq<Entry>): string {
    if es == [] then "" else Spaces(es[0].indent) + (Body(es[0]) + "\n" + Written(es[1..]))
  }

  /** The names of the devices, in order. */
  function EntryNames(es: seq<Entry>): seq<string> {
    if es == [] then [] else (if es[0].Device? then [es[0].name] else []) + EntryNames(es[1..])
  }

  lemma {:induction false} SkipAll(n: nat, s: string)
    requires s == "" || s[0] != ' '
    ensures SkipSpaces(Spaces(n) + s) == s
  {
    if n == 0 {
      assert Spaces(0) + s == s;
    } else {
      assert (Spaces(n) + s)[1..] == Spaces(n - 1) + s;
      SkipAll(n - 1, s);
    }
  }

  /** Leading spaces are dropped, and the line ends at the first newline. */
  lemma FirstLineOf(indent: nat, body: string, more: string)
    requires '\n' !in body && (body != "" ==> body[0] != ' ')
    ensures FirstLine(Spaces(indent) + (body + "\n" + more)) == Split(body, more)
  {
    var s := body + "\n" + more;
    assert s[|body|] == '\n' && forall i :: 0 <= i < |body| ==> s[i] == body[i];
    SkipAll(indent, s);
    FindIs(s, '\n', |body|);
    assert s[..|body|] == body && s[|body| + 1..] == more;
  }

  /** A text without newline has no line, whatever it holds. */
  lemma {:induction false} SkipKeepsNoNewline(s: string)
    requires '\n' !in s
    ensures '\n' !in SkipSpaces(s)
  {
    if s != "" && s[0] == ' ' { SkipKeepsNoNewline(s[1..]); }
  }

  lemma NoLine(tail: string)
    requires '\n' !in tail
    ensures FirstLine(tail) == End
  {
    SkipKeepsNoNewline(tail);
    FindIs(SkipSpaces(tail), '\n', |SkipSpaces(tail)|);
  }

  lemma LastFieldOf(middle: string, name: string)
    requires (middle == "" || middle[|middle| - 1] in " \t=") && Plain(name)
    ensures LastField(middle + name) == name
  {
    var s := middle + name;
    var j := LastFieldIsLast(s);
    assert forall i :: |middle| <= i < |s| ==> s[i] == name[i - |middle|];
    assert middle != "" ==> s[|middle| - 1] == middle[|middle| - 1];
    assert j == |middle|;
    assert s[|middle|..] == name;
  }

  lemma ClassifyDevice(e: Entry)
    requires EntryOk(e) && e.Device?
    ensures Classify(Body(e)) == Chan(e.name)
  {
    var line := "chan" + [e.sep] + e.middle + e.name;
    assert line[4] == e.sep && line[0] == 'c' && line[1] == 'h' && line[2] == 'a' && line[3] == 'n';
    FindDelimIs(line, 4);
    assert line[..4] == "chan" && line[5..] == e.middle + e.name;
    LastFieldOf(e.middle, e.name);
  }

  /** Registrations one after the other: all names, or the code of the first that is refused. */
  function Register(ns: seq<string>, kernel: Kernel, names: seq<string>): Outcome {
    if ns == [] then Success(names)
    else if Code(kernel(|names|)) != 0 then Failed(Code(kernel(|names|)))
    else Register(ns[1..], kernel, names + [ns[0]])
  }

  lemma NoNewlineInBody(e: Entry)
    requires EntryOk(e)
    ensures '\n' !in Body(e) && (Body(e) != "" ==> Body(e)[0] != ' ')
  {
  }

  /**
   A configuration of blank lines, comments and devices, each line indented at will and with any
   separator and any text before the name, registers the names of its devices in order. Text behind
   the last newline does not count.
   */
  lemma {:induction false} ParseWritten(es: seq<Entry>, tail: string, kernel: Kernel, names: seq<string>)
    requires EntriesOk(es) && '\n' !in tail
    ensures Parse(Written(es) + tail, kernel, names) == Register(EntryNames(es), kernel, names)
    decreases |es|
  {
    if es == [] {
      assert "" + tail == tail;
      NoLine(tail);
    } else {
      var e, rest := es[0], Written(es[1..]) + tail;
      assert EntryOk(e) && EntriesOk(es[1..]);
      NoNewlineInBody(e);
      WrittenSplits(es, tail);
      FirstLineOf(e.indent, Body(e), rest);
      match e
      case Device(_, _, _, name) =>
        ClassifyDevice(e);
        assert EntryNames(es)[1..] == EntryNames(es[1..]) && EntryNames(es)[0] == name;
        ParseWritten(es[1..], tail, kernel, names + [name]);
      case _ =>
        assert EntryNames(es) == EntryNames(es[1..]);
        ParseWritten(es[1..], tail, kernel, names);
    }
  }

  lemma WrittenSplits(es: seq<Entry>, tail: string)
    requires es != []
    ensures Written(es) + tail == Spaces(es[0].indent) + (Body(es[0]) + "\n" + (Written(es[1..]) + tail))
  {
    var a, b, c := Spaces(es[0].indent), Body(es[0]) + "\n", Written(es[1..]);
    assert (a + (b + c)) + tail == a + (b + (c + tail));
  }

  lemma {:induction false} RegisterAll(ns: seq<string>, kernel: Kernel, names: seq<string>)
    requires forall i :: |names| <= i < |names| + |ns| ==> Code(kernel(i)) == 0
    ensures Register(ns, kernel, names) == Success(names + ns)
  {
    if ns == [] {
      assert names + ns == names;
    } else {
      RegisterAll(ns[1..], kernel, names + [ns[0]]);
      assert (names + [ns[0]]) + ns[1..] == names + ns;
    }
  }

  lemma {:induction false} RegisterFails(ns: seq<string>, kernel: Kernel, names: seq<string>, k: nat)
    requires |names| <= k < |names| + |ns| && Code(kernel(k)) != 0
    requires forall i :: |names| <= i < k ==> Code(kernel(i)) == 0
    ensures Register(ns, kernel, names) == Failed(Code(kernel(k)))
  {
    if k > |names| {
      RegisterFails(ns[1..], kernel, names + [ns[0]], k);
    }
  }

  /** A written configuration registers all its names, or ends with the code of the first that is refused. */
  lemma WrittenOutcome(es: seq<Entry>, tail: string, kernel: Kernel, k: nat)
    requires EntriesOk(es) && '\n' !in tail && k <= |EntryNames(es)|
    requires forall i :: 0 <= i < k ==> Code(kernel(i)) == 0
    ensures k == |EntryNames(es)| ==> Parse(Written(es) + tail, kernel, []) == Success(EntryNames(es))
    ensures k < |EntryNames(es)| && Code(kernel(k)) != 0 ==>
              Parse(Written(es) + tail, kernel, []) == Failed(Code(kernel(k)))
  {
    ParseWritten(es, tail, kernel, []);
    if k == |EntryNames(es)| {
      RegisterAll(EntryNames(es), kernel, []);
      assert [] + EntryNames(es) == EntryNames(es);
    } else if Code(kernel(k)) != 0 {
      RegisterFails(EntryNames(es), kernel, [], k);
    }
  }

  /** A line whose first word is another key is refused, and so is the whole configuration, whatever follows. */
  lemma OtherKeyRefused(indent: nat, key: string, args: string, more: string, kernel: Kernel, names: seq<string>)
    requires key != "" && key[0] != '#' && key != "chan" && Plain(key)
    requires '\n' !in args && (args == "" || args[0] in " \t=")
    ensures Parse(Spaces(indent) + (key + args + "\n" + more), kernel, names) == BadKey(key)
  {
    var line := key + args;
    assert forall i :: 0 <= i < |key| ==> line[i] == key[i];
    assert args != "" ==> line[|key|] == args[0];
    FindDelimIs(line, |key|);
    assert line[..|key|] == key;
    FirstLineOf(indent, line, more);
  }
}

/** The parser as it runs, moving through the text and cutting it up with NUL characters in place. */
module ConfigParser {
  import opened Common
  import opened ConfigText
  import Queue

  /** strchr( b, '\n' ): the position found, or z, where the text ends, when there is none. */
  method StrChrNewline(buff: array<char>, b: nat, z: nat) returns (e: nat)
    requires b <= z < buff.Length
    ensures b <= e <= z && e - b == Find(buff[b..z], '\n')
  {
    e := b;
    while e < z && buff[e] != '\n'
      invariant b <= e <= z
      invariant forall i :: b <= i < e ==> buff[i] != '\n'
    {
      e := e + 1;
    }
    FindIs(buff[b..z], '\n', e - b);
  }

  /** Removes leading spaces; the NUL at z is not a space. */
  method Skip(buff: array<char>, start: nat, z: nat) returns (b: nat)
    requires start <= z < buff.Length && buff[z] == NUL
    ensures start <= b <= z && buff[b..z] == SkipSpaces(buff[start..z])
  {
    b := start;
    while buff[b] == ' '
      invariant start <= b <= z
      invariant SkipSpaces(buff[b..z]) == SkipSpaces(buff[start..z])
      decreases z - b
    {
      assert buff[b..z][1..] == buff[b + 1..z];
      b := b + 1;
    }
    assert b < z ==> buff[b..z][0] != ' ';
  }

  lemma CutAt(w: string, b: nat, k: nat, e: nat)
    requires b <= k < e <= |w|
    ensures w[k := NUL][b..k] == w[b..e][..k - b] && w[k := NUL][k + 1..e] == w[b..e][k - b + 1..]
    ensures w[k := NUL][e..] == w[e..]
  {
  }

  /**
   strsep( &b, " \t=" ) on a string that ends at e: the token is buff[b..k]. When a delimiter was
   found it is overwritten and `next` is behind it, otherwise `next` is null.
   */
  method StrSep(buff: array<char>, b: nat, e: nat) returns (k: nat, next: Option<nat>)
    requires b <= e < buff.Length && buff[e] == NUL && NUL !in buff[b..e]
    modifies buff
    ensures b <= k <= e && k - b == FindDelim(old(buff[b..e]))
    ensures next == if k < e then Some(k + 1) else None
    ensures buff[b..k] == old(buff[b..e])[..k - b]
    ensures k < e ==> buff[k + 1..e] == old(buff[b..e])[k - b + 1..]
    ensures buff[e] == NUL && buff[e..] == old(buff[e..])
  {
    ghost var w := buff[..];
    k := b;
    while buff[k] != NUL && !IsDelim(buff[k])
      invariant b <= k <= e
      invariant forall i :: b <= i < k ==> !IsDelim(buff[i])
      decreases e - k
    {
      k := k + 1;
    }
    assert k < e ==> buff[k] in buff[b..e];
    FindDelimIs(buff[b..e], k - b);
    if buff[k] == NUL {
      next := None;
    } else {
      buff[k] := NUL;
      next := Some(k + 1);
      CutAt(w, b, k, e);
      assert buff[..] == w[k := NUL];
      assert buff[b..k] == buff[..][b..k] && buff[k + 1..e] == buff[..][k + 1..e] && buff[e..] == buff[..][e..];
    }
  }

  /** strsep, seen from the fields still to come. */
  method NextField(buff: array<char>, b: nat, e: nat) returns (k: nat, next: Option<nat>)
    requires b <= e < buff.Length && buff[e] == NUL && NUL !in buff[b..e]
    modifies buff
    ensures buff[e] == NUL && buff[e..] == old(buff[e..])
    ensures next == None ==> b <= k <= e && buff[b..k] == LastField(old(buff[b..e]))
    ensures next != None ==> b < next.value <= e && NUL !in buff[next.value..e]
    ensures next != None ==> LastField(buff[next.value..e]) == LastField(old(buff[b..e]))
  {
    k, next := StrSep(buff, b, e);
    if next == None {
      assert k == e;
    }
  }

  /** The do-while loop: fields are taken off until the last one, which has no delimiter behind it. */
  method LastToken(buff: array<char>, b: nat, e: nat) returns (name: string)
    requires b <= e < buff.Length && buff[e] == NUL && NUL !in buff[b..e]
    modifies buff
    ensures name == LastField(old(buff[b..e])) && buff[e..] == old(buff[e..])
  {
    ghost var field := LastField(buff[b..e]);
    var token, k, next := b, b, Some(b);
    while true
      invariant buff[e] == NUL && buff[e..] == old(buff[e..])
      invariant next == Some(token) && b <= token <= e && NUL !in buff[token..e] && LastField(buff[token..e]) == field
      decreases e - token
    {
      k, next := NextField(buff, token, e);
      if next == None { break; }
      token := next.value;
    }
    name := buff[token..k];
  }

  /** The fields of one line buff[b..e]: the key, then everything up to the last field. */
  method ParseFields(buff: array<char>, b: nat, e: nat) returns (line: Line)
    requires b < e < buff.Length && buff[e] == NUL && NUL !in buff[b..e] && buff[b] != '#'
    modifies buff
    ensures line == Classify(old(buff[b..e])) && buff[e..] == old(buff[e..])
  {
    var k, next := StrSep(buff, b, e);
    if buff[b..k] != "chan" { return Illegal(buff[b..k]); }
    if next == None { return NoField; }
    var name := LastToken(buff, k + 1, e);
    return Chan(name);
  }

  /** Ends a line with a NUL in place of its newline. */
  method EndLine(buff: array<char>, start: nat, e: nat, z: nat)
    requires start <= e < z < buff.Length && buff[z] == NUL && NUL !in buff[start..z]
    modifies buff
    ensures buff[start..e] == old(buff[start..z])[..e - start]
    ensures buff[e + 1..z] == old(buff[start..z])[e - start + 1..]
    ensures buff[z] == NUL && buff[e] == NUL && NUL !in buff[start..e] && NUL !in buff[e + 1..z]
  {
    ghost var w := buff[..];
    buff[e] := NUL;
    CutAt(w, start, e, z);
    assert buff[..] == w[e := NUL];
    assert buff[start..e] == buff[..][start..e] && buff[e + 1..z] == buff[..][e + 1..z];
  }

  lemma FirstLineIs(t: string, s: string, k: nat)
    requires s == SkipSpaces(t) && k == Find(s, '\n')
    ensures FirstLine(t) == if k < |s| then Split(s[..k], s[k + 1..]) else End
  {
  }

  /** Finds the next line and ends it with a NUL; `found` is false when no newline is left. */
  method NextLine(buff: array<char>, b: nat, z: nat) returns (found: bool, start: nat, e: nat)
    requires b <= z < buff.Length && buff[z] == NUL && NUL !in buff[b..z]
    modifies buff
    ensures buff[z] == NUL && b <= start <= e <= z && (found ==> e < z && buff[e] == NUL)
    ensures NUL !in buff[start..e] && (found ==> NUL !in buff[e + 1..z])
    ensures FirstLine(old(buff[b..z])) == if found then Split(buff[start..e], buff[e + 1..z]) else End
  {
    start := Skip(buff, b, z);
    e := StrChrNewline(buff, start, z);
    found := e < z;
    ghost var t, s := buff[b..z], buff[start..z];
    assert s == t[start - b..];
    FirstLineIs(t, s, e - start);
    if found {
      EndLine(buff, start, e, z);
    }
  }

  /** One pass of the loop of dev_init, up to the registration. */
  method ParseLine(buff: array<char>, b: nat, z: nat) returns (found: bool, line: Line, next: nat)
    requires b <= z < buff.Length && buff[z] == NUL && NUL !in buff[b..z]
    modifies buff
    ensures buff[z] == NUL
    ensures !found ==> FirstLine(old(buff[b..z])) == End
    ensures found ==> b < next <= z && NUL !in buff[next..z]
                      && var first := FirstLine(old(buff[b..z]));
                         first.Split? && first.rest == buff[next..z] && line == Classify(first.line)
  {
    var start, e;
    found, start, e := NextLine(buff, b, z);
    line, next := Blank, e + 1;
    if found && start != e && buff[start] != '#' {
      ghost var behind := buff[e..];
      assert buff[next..z] == behind[1..z - e] && behind[z - e] == NUL;
      line := ParseFields(buff, start, e);
      assert buff[next..z] == buff[e..][1..z - e] && buff[z] == buff[e..][z - e];
    }
  }

  // ------------------------------------------------------------------ the channels

  /** A registered device: its name, its minor number and the queue of its data. */
  class Channel {
    const name: string
    const minor: int
    const queue: Queue.Queue

    constructor (name: string, minor: int, queue: Queue.Queue)
      ensures this.name == name && this.minor == minor && this.queue == queue
    {
      this.name, this.minor, this.queue := name, minor, queue;
    }
  }

  function DeviceNames(ds: seq<Channel>): (names: seq<string>)
    ensures |names| == |ds| && forall i :: 0 <= i < |ds| ==> names[i] == ds[i].name
  {
    seq(|ds|, i requires 0 <= i < |ds| => ds[i].name)
  }

  lemma DeviceNamesAppend(ds: seq<Channel>, c: Channel)
    ensures DeviceNames(ds + [c]) == DeviceNames(ds) + [c.name]
  {
  }

  ghost predicate ClearList(ds: seq<Channel>, buff: array<char>)
    reads set i | 0 <= i < |ds| :: ds[i].queue
  {
    forall i :: 0 <= i < |ds| ==> buff !in ds[i].queue.Repr
  }

  /** Each device has the minor number that the kernel gave to its registration. */
  predicate MinorsOk(ds: seq<Channel>, minor: nat -> int) {
    forall i :: 0 <= i < |ds| ==> ds[i].minor == minor(i)
  }

  lemma MinorsGrow(ds: seq<Channel>, elem: Channel, minor: nat -> int)
    requires elem.minor == minor(|ds|)
    ensures MinorsOk(ds, minor) ==> MinorsOk(ds + [elem], minor)
  {
  }

  /** The first device with a minor number, if there is one. */
  predicate FirstWith(ds: seq<Channel>, minor: int, found: Option<nat>) {
    && (found.Some? ==> found.value < |ds| && ds[found.value].minor == minor)
    && forall i :: 0 <= i < (if found.Some? then found.value else |ds|) ==> ds[i].minor != minor
  }

  /** When the kernel gives out different minor numbers, opening by the number of a device reaches that device. */
  lemma OpenReachesOwn(ds: seq<Channel>, minor: nat -> int, i: nat, found: Option<nat>)
    requires MinorsOk(ds, minor) && i < |ds| && FirstWith(ds, minor(i), found)
    requires forall j, k :: 0 <= j < k < |ds| ==> minor(j) != minor(k)
    ensures found == Some(i)
  {
    assert ds[i].minor == minor(i);
    assert found.Some? ==> ds[found.value].minor == minor(found.value);
  }

  /** What the kernel does with the k-th registration: an error code, or a minor number. */
  datatype Registrar = Registrar(err: Kernel, minor: nat -> int)

  const EINVAL: int := 22

  /** Two queues that share no block, as the queues of two channels. */
  ghost predicate Apart(a: Queue.Queue, b: Queue.Queue)
    reads a, b
  {
    a != b && a !in b.Repr && b !in a.Repr && a.Repr !! b.Repr
  }

  /** The list of devices, in the order of their registration. */
  class Devices {
    const blockSize: nat
    var devs: seq<Channel>

    constructor (blockSize: nat)
      requires blockSize >= 1
      ensures this.blockSize == blockSize && devs == []
    {
      this.blockSize := blockSize;
      devs := [];
    }

    /** Every device of a list has a well-formed queue of its own, which shares nothing with the others. */
    ghost predicate SeparateList(ds: seq<Channel>)
      reads set i | 0 <= i < |ds| :: ds[i].queue, set i, o | 0 <= i < |ds| && o in ds[i].queue.Repr :: o
    {
      && (forall i :: 0 <= i < |ds| ==> ds[i].queue.Valid() && this !in ds[i].queue.Repr)
      && (forall i, j :: 0 <= i < j < |ds| ==> Apart(ds[i].queue, ds[j].queue))
    }

    ghost predicate Separate()
      reads this, set i | 0 <= i < |devs| :: devs[i].queue,
            set i, o | 0 <= i < |devs| && o in devs[i].queue.Repr :: o
    {
      SeparateList(devs)
    }

    lemma SeparateAppend(ds: seq<Channel>, elem: Channel)
      requires SeparateList(ds) && elem.queue.Valid() && this !in elem.queue.Repr
      requires forall i :: 0 <= i < |ds| ==> Apart(ds[i].queue, elem.queue)
      ensures SeparateList(ds + [elem])
    {
      var to := ds + [elem];
      forall i | 0 <= i < |to| ensures to[i].queue.Valid() && this !in to[i].queue.Repr {
        assert i < |ds| ==> to[i] == ds[i];
      }
      forall i, j | 0 <= i < j < |to| ensures Apart(to[i].queue, to[j].queue) {
        assert to[i] == ds[i] && (j < |ds| ==> to[j] == ds[j]);
      }
    }

    /** conf_write to the device with index `k`: appends to its queue and leaves every other queue as it was. */
    method ConfWrite(k: nat, buf: seq<Byte>) returns (sumlen: nat)
      requires Separate() && k < |devs|
      modifies devs[k].queue, devs[k].queue.Repr
      ensures Separate() && devs == old(devs) && sumlen == |buf|
      ensures devs[k].queue.written == old(devs[k].queue.written) + buf
      ensures devs[k].queue.consumed == old(devs[k].queue.consumed)
      ensures forall i :: 0 <= i < |devs| && i != k ==>
                && devs[i].queue.written == old(devs[i].queue.written)
                && devs[i].queue.consumed == old(devs[i].queue.consumed)
    {
      var queue := devs[k].queue;
      sumlen := queue.Write(buf);
      forall i | 0 <= i < |devs| && i != k
        ensures unchanged(devs[i].queue) && devs[i].queue.Valid() && Apart(queue, devs[i].queue)
      {
        assert old(Apart(queue, devs[i].queue));
      }
    }

    /** conf_read from the device with index `k`, likewise. */
    method ConfRead(k: nat, count: nat) returns (out: seq<Byte>)
      requires Separate() && k < |devs|
      modifies devs[k].queue, devs[k].queue.Repr
      ensures Separate() && devs == old(devs)
      ensures |out| == Min(count, |old(devs[k].queue.written)| - |old(devs[k].queue.consumed)|)
      ensures devs[k].queue.consumed == old(devs[k].queue.consumed) + out
      ensures devs[k].queue.written == old(devs[k].queue.written)
      ensures forall i :: 0 <= i < |devs| && i != k ==>
                && devs[i].queue.written == old(devs[i].queue.written)
                && devs[i].queue.consumed == old(devs[i].queue.consumed)
    {
      var queue := devs[k].queue;
      out := queue.Read(count);
      forall i | 0 <= i < |devs| && i != k
        ensures unchanged(devs[i].queue) && devs[i].queue.Valid() && Apart(queue, devs[i].queue)
      {
        assert old(Apart(queue, devs[i].queue));
      }
    }

    /** list_add_tail of a device whose queue is apart from all the others. */
    method Add(elem: Channel)
      requires Separate() && elem.queue.Valid() && this !in elem.queue.Repr
      requires forall i :: 0 <= i < |devs| ==> Apart(devs[i].queue, elem.queue)
      modifies `devs
      ensures Separate() && devs == old(devs) + [elem]
    {
      SeparateAppend(devs, elem);
      devs := devs + [elem];
    }

    /** A new device with an empty queue. */
    method AddNew(name: string, minor: int) returns (elem: Channel)
      requires blockSize >= 1 && Separate()
      modifies `devs
      ensures Separate() && devs == old(devs) + [elem] && elem.name == name && elem.minor == minor
      ensures fresh(elem.queue) && fresh(elem.queue.Repr) && elem.queue.written == [] && elem.queue.consumed == []
    {
      var queue := new Queue.Queue(blockSize);
      elem := new Channel(name, minor, queue);
      forall i | 0 <= i < |devs| ensures Apart(devs[i].queue, queue) {
        assert devs[i].queue.Valid();
      }
      Add(elem);
    }

    /** Registers one more device with an empty queue of its own, unless the kernel refuses. */
    method NextDev(name: string, reg: Registrar) returns (err: int)
      requires blockSize >= 1 && Separate()
      modifies `devs
      ensures Separate() && err == Code(reg.err(|old(devs)|))
      ensures err == match reg.err(|old(devs)|) case NoRoom => -12 case Tried(code) => code
      ensures err != 0 ==> devs == old(devs)
      ensures err == 0 ==>
                && |devs| == |old(devs)| + 1 && devs == old(devs) + [devs[|old(devs)|]]
                && devs[|old(devs)|].minor == reg.minor(|old(devs)|)
                && DeviceNames(devs) == DeviceNames(old(devs)) + [name]
                && var queue := devs[|old(devs)|].queue;
                   fresh(queue) && fresh(queue.Repr) && queue.written == [] && queue.consumed == []
    {
      err := Code(reg.err(|devs|));
      if err != 0 { return; }
      var elem := AddNew(name, reg.minor(|devs|));
      DeviceNamesAppend(old(devs), elem);
    }

    /** No queue uses `buff` as its storage. */
    ghost predicate Clear(buff: array<char>)
      reads this, set i | 0 <= i < |devs| :: devs[i].queue
    {
      ClearList(devs, buff)
    }

    lemma ClearAppend(ds: seq<Channel>, elem: Channel, buff: array<char>)
      requires ClearList(ds, buff) && buff !in elem.queue.Repr
      ensures ClearList(ds + [elem], buff)
    {
    }

    /** Registration as dev_init calls it, in between two lines of its text. */
    method RegisterNext(name: string, reg: Registrar, ghost buff: array<char>) returns (err: int)
      requires blockSize >= 1 && Separate() && Clear(buff)
      modifies `devs
      ensures Separate() && Clear(buff) && err == Code(reg.err(|old(devs)|))
      ensures err == 0 ==> DeviceNames(devs) == DeviceNames(old(devs)) + [name]
      ensures err == 0 && MinorsOk(old(devs), reg.minor) ==> MinorsOk(devs, reg.minor)
    {
      ghost var before := devs;
      err := NextDev(name, reg);
      if err == 0 {
        MinorsGrow(before, devs[|before|], reg.minor);
        ClearAppend(before, devs[|before|], buff);
      }
    }

    /** One line of the text, which is not kept in any queue. */
    method ReadLine(buff: array<char>, b: nat, z: nat) returns (found: bool, line: Line, next: nat)
      requires b <= z < buff.Length && buff[z] == NUL && NUL !in buff[b..z] && Separate() && Clear(buff)
      modifies buff
      ensures buff[z] == NUL && Separate() && Clear(buff)
      ensures !found ==> FirstLine(old(buff[b..z])) == End
      ensures found ==> b < next <= z && NUL !in buff[next..z]
                        && var first := FirstLine(old(buff[b..z]));
                           first.Split? && first.rest == buff[next..z] && line == Classify(first.line)
    {
      found, line, next := ParseLine(buff, b, z);
    }

    /** erase_dev: drops the device at the head. */
    method EraseDev()
      requires Separate()
      modifies `devs
      ensures Separate() && devs == if old(devs) == [] then [] else old(devs)[1..]
    {
      if devs == [] { return; }
      devs := devs[1..];
    }

    /** conf_open: the first device with that minor number, if there is one. */
    method Open(minor: int) returns (found: Option<nat>)
      ensures FirstWith(devs, minor, found)
    {
      var i := 0;
      while i < |devs|
        invariant 0 <= i <= |devs|
        invariant forall j :: 0 <= j < i ==> devs[j].minor != minor
      {
        if devs[i].minor == minor { return Some(i); }
        i := i + 1;
      }
      return None;
    }

    /**
     dev_init on the text buff[..z]. A failure leaves no device; `Crash` stands for the use of a
     null name, after which nothing is promised.
     */
    method Init(buff: array<char>, z: nat, reg: Registrar) returns (ret: int, outcome: Outcome)
      requires blockSize >= 1 && devs == []
      requires z < buff.Length && buff[z] == NUL && NUL !in buff[..z]
      modifies `devs, buff
      ensures outcome == Parse(old(buff[..z]), reg.err, [])
      ensures Separate()
      ensures outcome.Success? ==> ret == 0 && DeviceNames(devs) == outcome.names && MinorsOk(devs, reg.minor)
      ensures outcome.BadKey? ==> ret == -22 && devs == []
      ensures outcome.Failed? ==> ret == outcome.err && ret != 0 && devs == []
    {
      ghost var target := Parse(buff[..z], reg.err, []);
      var b := 0;
      assert buff[b..z] == buff[..z];
      while true
        invariant b <= z && buff[z] == NUL && NUL !in buff[b..z] && Separate() && Clear(buff)
        invariant Parse(buff[b..z], reg.err, DeviceNames(devs)) == target && MinorsOk(devs, reg.minor)
        decreases z - b
      {
        var found, line, next := ReadLine(buff, b, z);
        if !found { return 0, Success(DeviceNames(devs)); }
        match line {
          case Illegal(key) =>
            EraseAll();
            return -EINVAL, BadKey(key);
          case NoField =>
            if reg.err(|devs|).NoRoom? {
              EraseAll();
              return -ENOMEM, Failed(-ENOMEM);
            }
            return 0, Crash;
          case Chan(name) =>
            var err := RegisterNext(name, reg, buff);
            if err != 0 {
              EraseAll();
              return err, Failed(err);
            }
          case Blank =>
        }
        b := next;
      }
    }

    method EraseAll()
      requires Separate()
      modifies `devs
      ensures devs == []
    {
      while devs != []
        invariant Separate()
        decreases |devs|
      {
        EraseDev();
      }
    }
  }
}
