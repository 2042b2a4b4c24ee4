/**
 The growable byte device of Tasks/fuse/cusexmp.c and its ioctl protocol: the server asks, round
 after round, for the parts of the caller's memory it needs before it does the operation.

 `alloc` tells for which sizes realloc succeeds. Sizes and offsets are 64-bit words.
 */
module CuseModel {
  import opened Common

  type Alloc = nat -> bool

  // ------------------------------------------------------------------ the byte store

  function Zeros(n: nat): seq<Byte> {
    seq(n, _ => 0)
  }

  /** cusexmp_resize; None is -ENOMEM. */
  function Resize(s: seq<Byte>, n: nat, alloc: Alloc): Option<seq<Byte>> {
    if n == |s| then Some(s)
    else if n > 0 && !alloc(n) then None
    else if n <= |s| then Some(s[..n])
    else Some(s + Zeros(n - |s|))
  }

  function Expand(s: seq<Byte>, n: nat, alloc: Alloc): Option<seq<Byte>> {
    if n > |s| then Resize(s, n, alloc) else Some(s)
  }

  function Write(s: seq<Byte>, off: nat, data: seq<Byte>, alloc: Alloc): Option<seq<Byte>> {
    match Expand(s, off + |data|, alloc)
    case None => None
    case Some(t) => Some(t[..off] + data + t[off + |data|..])
  }

  /** How a write ends: Outside when its range leaves the buffer after the resize. */
  datatype WriteCode = Stored | NoMemory | Outside

  /** cusexmp_write: the size to expand to is computed in 64 bits. Outside stops before the copy. */
  function Put(s: seq<Byte>, off: nat, data: seq<Byte>, alloc: Alloc): (seq<Byte>, WriteCode) {
    match Expand(s, U64(off + |data|), alloc)
    case None => (s, NoMemory)
    case Some(t) =>
      if off + |data| > |t| then (t, Outside) else (t[..off] + data + t[off + |data|..], Stored)
  }

  function Read(s: seq<Byte>, off: nat, n: nat): seq<Byte> {
    var o := Min(off, |s|);
    s[o..o + Min(n, |s| - o)]
  }

  /** A resize keeps the common front, fills growth with zeros, and needs memory unless the size stays or becomes 0. */
  lemma ResizeMeans(s: seq<Byte>, n: nat, alloc: Alloc)
    ensures Resize(s, n, alloc).Some? <==> n == |s| || n == 0 || alloc(n)
    ensures Resize(s, n, alloc).Some? ==>
              var t := Resize(s, n, alloc).value;
              |t| == n && forall i :: 0 <= i < n ==> t[i] == if i < |s| then s[i] else 0
  {
  }

  /** A read gives the bytes from the offset on, as many as asked for or as the device has, and none beyond its end. */
  lemma ReadMeans(s: seq<Byte>, off: nat, n: nat)
    ensures var r := Read(s, off, n);
            && |r| == (if off >= |s| then 0 else if n <= |s| - off then n else |s| - off)
            && forall i :: 0 <= i < |r| ==> r[i] == s[off + i]
  {
  }

  /** A write keeps everything outside its range, zero-fills a gap, and ends at the larger of both ends. */
  lemma WriteMeans(s: seq<Byte>, off: nat, data: seq<Byte>, alloc: Alloc)
    ensures Write(s, off, data, alloc) == None <==> off + |data| > |s| && !alloc(off + |data|)
    ensures Write(s, off, data, alloc).Some? ==>
              var t := Write(s, off, data, alloc).value;
              && |t| == Max(|s|, off + |data|)
              && t[off..off + |data|] == data
              && (forall i :: 0 <= i < |t| && !(off <= i < off + |data|) ==> t[i] == if i < |s| then s[i] else 0)
  {
  }

  /**
   Once the resize has succeeded the range written lies inside the buffer exactly when its end does
   not wrap around 64 bits; then the write is the plain one.
   */
  lemma PutInsideIff(s: seq<Byte>, off: nat, data: seq<Byte>, alloc: Alloc)
    requires off < TWO_64 && |s| < TWO_63 && |data| < TWO_63
    ensures Put(s, off, data, alloc).1 == NoMemory <==> Expand(s, U64(off + |data|), alloc) == None
    ensures Put(s, off, data, alloc).1 == Outside <==>
            Expand(s, U64(off + |data|), alloc).Some? && off + |data| >= TWO_64
    ensures off + |data| < TWO_64 ==>
              Put(s, off, data, alloc)
              == match Write(s, off, data, alloc) case None => (s, NoMemory) case Some(t) => (t, Stored)
  {
  }

  /** What was written is what a read of the same range returns. */
  lemma ReadAfterWrite(s: seq<Byte>, off: nat, data: seq<Byte>, alloc: Alloc)
    requires Write(s, off, data, alloc).Some?
    ensures Read(Write(s, off, data, alloc).value, off, |data|) == data
  {
    WriteMeans(s, off, data, alloc);
  }

  /** Shrinking forgets: growing again yields zeros behind the smallest size. */
  lemma ShrinkThenGrow(s: seq<Byte>, n: nat, m: nat, alloc: Alloc)
    requires n <= |s| && n <= m
    requires Resize(s, n, alloc).Some? && Resize(Resize(s, n, alloc).value, m, alloc).Some?
    ensures Resize(Resize(s, n, alloc).value, m, alloc).value == s[..n] + Zeros(m - n)
  {
  }

  // ------------------------------------------------------------------ words in memory

  /** `k` bytes, the least significant first. */
  function Encode(n: nat, k: nat): (s: seq<Byte>)
    ensures |s| == k
  {
    if k == 0 then [] else [n % 256] + Encode(n / 256, k - 1)
  }

  function Decode(s: seq<Byte>): nat {
    if s == [] then 0 else s[0] + 256 * Decode(s[1..])
  }

  lemma {:induction false} DecodeEncode(n: nat, k: nat)
    requires n < Pow(256, k)
    ensures Decode(Encode(n, k)) == n
  {
    if k > 0 { DecodeEncode(n / 256, k - 1); }
  }

  /** Words are stored with the least significant byte first. */
  lemma LittleEndian()
    ensures Encode(0x0102, 2) == [2, 1] && Decode([2, 1]) == 0x0102
  {
  }

  lemma {:induction false} DecodeBound(s: seq<Byte>)
    ensures Decode(s) < Pow(256, |s|)
  {
    if s != [] { DecodeBound(s[1..]); }
  }

  lemma WordRange()
    ensures Pow(256, 8) == TWO_64
  {
  }

  // ------------------------------------------------------------------ one round of the server

  const ENOSYS: nat := 38
  const EINVAL: nat := 22
  const ENOMEM: nat := 12

  datatype Cmd = GetSize | SetSize | ReadCmd | WriteCmd | Unknown

  datatype Iov = Iov(base: nat, len: nat)

  /** Wild: the server copies beyond its buffer, and nothing is promised. */
  datatype Reply =
    | Retry(ins: seq<Iov>, outs: seq<Iov>)
    | Data(result: nat, bytes: seq<Byte>)
    | Error(err: nat)
    | Wild

  const ARG_SIZE: nat := 40

  /** struct fioc_rw_arg as the server finds it in its input buffer. */
  datatype Arg = Arg(offset: nat, buf: nat, size: nat)

  function DecodeArg(b: seq<Byte>): Arg
    requires |b| >= ARG_SIZE
  {
    Arg(Decode(b[..8]), Decode(b[8..16]), Decode(b[16..24]))
  }

  function ArgIov(addr: nat): seq<Iov> {
    [Iov(addr, ARG_SIZE)]
  }

  /** The fields prev_size and new_size. */
  function SizeIovs(addr: nat): seq<Iov> {
    [Iov(addr + 24, 8), Iov(addr + 32, 8)]
  }

  /** fioc_do_rw. An input buffer is empty or starts with a whole argument structure. */
  function DoRw(s: seq<Byte>, addr: nat, inBuf: seq<Byte>, outSize: nat, isRead: bool, alloc: Alloc): (seq<Byte>, Reply)
    requires inBuf == [] || |inBuf| >= ARG_SIZE
  {
    if inBuf == [] then (s, Retry(ArgIov(addr), []))
    else
      var arg, data := DecodeArg(inBuf), inBuf[ARG_SIZE..];
      if isRead then
        if outSize == 0 then (s, Retry(ArgIov(addr), SizeIovs(addr) + [Iov(arg.buf, arg.size)]))
        else
          var out := Read(s, arg.offset, arg.size);
          (s, Data(|out|, Encode(|s|, 8) + Encode(|s|, 8) + out))
      else if arg.size != 0 && data == [] then
        (s, Retry(ArgIov(addr) + [Iov(arg.buf, arg.size)], SizeIovs(addr)))
      else
        var (t, code) := Put(s, arg.offset, data, alloc);
        match code
        case NoMemory => (t, Error(ENOMEM))
        case Outside => (t, Wild)
        case Stored => (t, Data(|data|, Encode(|s|, 8) + Encode(|t|, 8)))
  }

  /** An input buffer is empty or holds what the command reads from it. */
  predicate WholeInput(cmd: Cmd, inBuf: seq<Byte>) {
    match cmd
    case SetSize => inBuf == [] || |inBuf| >= 8
    case ReadCmd => inBuf == [] || |inBuf| >= ARG_SIZE
    case WriteCmd => inBuf == [] || |inBuf| >= ARG_SIZE
    case _ => true
  }

  /** cusexmp_ioctl: one round, from the input buffer to the reply. */
  function Ioctl(s: seq<Byte>, cmd: Cmd, compat: bool, addr: nat, inBuf: seq<Byte>, outSize: nat, alloc: Alloc)
    : (seq<Byte>, Reply)
    requires WholeInput(cmd, inBuf)
  {
    if compat then (s, Error(ENOSYS))
    else
      match cmd
      case GetSize =>
        if outSize == 0 then (s, Retry([], [Iov(addr, 8)])) else (s, Data(0, Encode(|s|, 8)))
      case SetSize =>
        if inBuf == [] then (s, Retry([Iov(addr, 8)], []))
        else (
          match Resize(s, Decode(inBuf[..8]), alloc)
          case None => (s, Data(0, []))
          case Some(t) => (t, Data(0, [])))
      case ReadCmd => DoRw(s, addr, inBuf, outSize, true, alloc)
      case WriteCmd => DoRw(s, addr, inBuf, outSize, false, alloc)
      case Unknown => (s, Error(EINVAL))
  }

  // ------------------------------------------------------------------ the rounds together

  predicate InMemory(mem: seq<Byte>, iovs: seq<Iov>) {
    forall i :: 0 <= i < |iovs| ==> iovs[i].base + iovs[i].len <= |mem|
  }

  /** The caller's memory at the given places, one after the other. */
  function Gather(mem: seq<Byte>, iovs: seq<Iov>): seq<Byte>
    requires InMemory(mem, iovs)
  {
    if iovs == [] then []
    else mem[iovs[0].base..iovs[0].base + iovs[0].len] + Gather(mem, iovs[1..])
  }

  /** Stores bytes at the given places, one after the other, as far as the bytes reach. */
  function Scatter(mem: seq<Byte>, iovs: seq<Iov>, bytes: seq<Byte>): (r: seq<Byte>)
    requires InMemory(mem, iovs)
    ensures |r| == |mem|
    decreases |iovs|
  {
    if iovs == [] then mem
    else
      var n, at := Min(iovs[0].len, |bytes|), iovs[0].base;
      Scatter(mem[..at] + bytes[..n] + mem[at + n..], iovs[1..], bytes[n..])
  }

  function TotalLen(iovs: seq<Iov>): nat {
    if iovs == [] then 0 else iovs[0].len + TotalLen(iovs[1..])
  }

  /** How a call ends for the caller: with the store, the caller's memory, and the number of retries made. */
  datatype Outcome =
    | Done(store: seq<Byte>, mem: seq<Byte>, result: nat, retries: nat)
    | Failed(store: seq<Byte>, err: nat, retries: nat)
    | Undefined
    | Fault
    | Unfinished

  /** The caller's side of the protocol, for at most `rounds` rounds; memory stays as it is in between. */
  function Drive(s: seq<Byte>, mem: seq<Byte>, cmd: Cmd, compat: bool, addr: nat, alloc: Alloc,
                 ins: seq<Iov>, outs: seq<Iov>, retries: nat, rounds: nat): Outcome
    decreases rounds
  {
    if rounds == 0 then Unfinished
    else if !InMemory(mem, ins) || !InMemory(mem, outs) then Fault
    else
      var inBuf := Gather(mem, ins);
      if !WholeInput(cmd, inBuf) then Fault
      else
        var (t, reply) := Ioctl(s, cmd, compat, addr, inBuf, TotalLen(outs), alloc);
        match reply
        case Retry(i, o) => Drive(t, mem, cmd, compat, addr, alloc, i, o, retries + 1, rounds - 1)
        case Data(result, bytes) => Done(t, Scatter(mem, outs, bytes), result, retries)
        case Error(err) => Failed(t, err, retries)
        case Wild => Undefined
  }

  /** The store at the beginning of each round that Drive makes. */
  function Stores(s: seq<Byte>, mem: seq<Byte>, cmd: Cmd, compat: bool, addr: nat, alloc: Alloc,
                  ins: seq<Iov>, outs: seq<Iov>, rounds: nat): seq<seq<Byte>>
    decreases rounds
  {
    if rounds == 0 || !InMemory(mem, ins) || !InMemory(mem, outs) || !WholeInput(cmd, Gather(mem, ins)) then [s]
    else
      var (t, reply) := Ioctl(s, cmd, compat, addr, Gather(mem, ins), TotalLen(outs), alloc);
      [s] + if reply.Retry? then Stores(t, mem, cmd, compat, addr, alloc, reply.ins, reply.outs, rounds - 1) else []
  }

  /**
   Every round, the last one included, begins with the store as it was before the call. A call that
   fails leaves it so, and so does one that only reads.
   */
  lemma {:induction false} OnlyFinalRoundChanges(s: seq<Byte>, mem: seq<Byte>, cmd: Cmd, compat: bool, addr: nat,
                                                 alloc: Alloc, ins: seq<Iov>, outs: seq<Iov>, retries: nat, rounds: nat)
    ensures forall t :: t in Stores(s, mem, cmd, compat, addr, alloc, ins, outs, rounds) ==> t == s
    ensures var r := Drive(s, mem, cmd, compat, addr, alloc, ins, outs, retries, rounds);
            && (r.Failed? ==> r.store == s)
            && (r.Done? && (cmd == ReadCmd || cmd == GetSize) ==> r.store == s)
    decreases rounds
  {
    if rounds > 0 && InMemory(mem, ins) && InMemory(mem, outs) && WholeInput(cmd, Gather(mem, ins)) {
      var (t, reply) := Ioctl(s, cmd, compat, addr, Gather(mem, ins), TotalLen(outs), alloc);
      if reply.Retry? {
        assert t == s;
        OnlyFinalRoundChanges(t, mem, cmd, compat, addr, alloc, reply.ins, reply.outs, retries + 1, rounds - 1);
      }
    }
  }

  // ------------------------------------------------------------------ the outcome of a call

  /** The caller passes the address of an argument structure whose buffer lies in its memory. */
  predicate GoodArg(mem: seq<Byte>, addr: nat) {
    addr + ARG_SIZE <= |mem| && CallArg(mem, addr).buf + CallArg(mem, addr).size <= |mem|
  }

  function CallArg(mem: seq<Byte>, addr: nat): Arg
    requires addr + ARG_SIZE <= |mem|
  {
    DecodeArg(mem[addr..addr + ARG_SIZE])
  }

  function UserBuf(mem: seq<Byte>, a: Arg): seq<Byte>
    requires a.buf + a.size <= |mem|
  {
    mem[a.buf..a.buf + a.size]
  }

  lemma GatherArg(mem: seq<Byte>, addr: nat)
    requires addr + ARG_SIZE <= |mem|
    ensures InMemory(mem, ArgIov(addr)) && Gather(mem, ArgIov(addr)) == mem[addr..addr + ARG_SIZE]
  {
    assert ArgIov(addr)[1..] == [];
  }

  lemma GatherArgAndBuf(mem: seq<Byte>, addr: nat)
    requires GoodArg(mem, addr)
    ensures var a := CallArg(mem, addr);
            var ins := ArgIov(addr) + [Iov(a.buf, a.size)];
            InMemory(mem, ins) && Gather(mem, ins) == mem[addr..addr + ARG_SIZE] + UserBuf(mem, a)
  {
    var a := CallArg(mem, addr);
    var ins := ArgIov(addr) + [Iov(a.buf, a.size)];
    assert ins[1..] == [Iov(a.buf, a.size)] && ins[1..][1..] == [];
    assert Gather(mem, ins[1..]) == UserBuf(mem, a);
  }

  lemma SizesLength(addr: nat, more: seq<Iov>)
    ensures TotalLen(SizeIovs(addr) + more) >= 16
  {
    var o := SizeIovs(addr) + more;
    assert o[1..][1..] == more;
  }

  /**
   FIOC_READ ends after exactly two retries, for every argument, with the store untouched: the
   result is the length of a plain read, and both sizes and the data go to the caller.
   */
  lemma ReadOutcome(s: seq<Byte>, mem: seq<Byte>, addr: nat, alloc: Alloc, rounds: nat)
    requires rounds >= 3 && GoodArg(mem, addr)
    ensures var a := CallArg(mem, addr);
            var data := Read(s, a.offset, a.size);
            var outs := SizeIovs(addr) + [Iov(a.buf, a.size)];
            InMemory(mem, outs) &&
            Drive(s, mem, ReadCmd, false, addr, alloc, [], [], 0, rounds)
              == Done(s, Scatter(mem, outs, Encode(|s|, 8) + Encode(|s|, 8) + data), |data|, 2)
  {
    var a := CallArg(mem, addr);
    var outs := SizeIovs(addr) + [Iov(a.buf, a.size)];
    GatherArg(mem, addr);
    SizesLength(addr, [Iov(a.buf, a.size)]);
    var ins := ArgIov(addr);
    assert mem[addr..addr + ARG_SIZE][ARG_SIZE..] == [];
    var data := Read(s, a.offset, a.size);
    assert Drive(s, mem, ReadCmd, false, addr, alloc, ins, outs, 2, rounds - 2)
      == Done(s, Scatter(mem, outs, Encode(|s|, 8) + Encode(|s|, 8) + data), |data|, 2);
    assert Drive(s, mem, ReadCmd, false, addr, alloc, ins, [], 1, rounds - 1)
      == Drive(s, mem, ReadCmd, false, addr, alloc, ins, outs, 2, rounds - 2);
  }

  /**
   What the caller of FIOC_READ finds, when the buffer does not overlap the size fields: the number
   of bytes that the device has from the offset on, up to the size asked for, those bytes, and the size.
   */
  lemma ReadDelivers(s: seq<Byte>, mem: seq<Byte>, addr: nat, alloc: Alloc, rounds: nat)
    requires rounds >= 3 && GoodArg(mem, addr) && |s| < TWO_64
    requires var a := CallArg(mem, addr); a.buf + a.size <= addr + 24 || addr + ARG_SIZE <= a.buf
    ensures var a := CallArg(mem, addr);
            var r := Drive(s, mem, ReadCmd, false, addr, alloc, [], [], 0, rounds);
            var n := if a.offset >= |s| then 0 else if a.size <= |s| - a.offset then a.size else |s| - a.offset;
            && r.Done? && r.store == s && r.result == n && |r.mem| == |mem|
            && (n > 0 ==> r.mem[a.buf..a.buf + n] == s[a.offset..a.offset + n])
            && HoldsSizes(r.mem, addr, |s|, |s|)
  {
    var a := CallArg(mem, addr);
    ReadOutcome(s, mem, addr, alloc, rounds);
    ReadMeans(s, a.offset, a.size);
    var data := Read(s, a.offset, a.size);
    assert |data| > 0 ==> data == s[a.offset..a.offset + |data|];
    SizesAndDataReported(mem, addr, a.buf, a.size, |s|, |s|, data);
  }

  /** Callers with another word size, and unknown commands, are refused at once and change nothing. */
  lemma RefusedCalls(s: seq<Byte>, mem: seq<Byte>, cmd: Cmd, addr: nat, alloc: Alloc, rounds: nat)
    requires rounds >= 1
    ensures Drive(s, mem, cmd, true, addr, alloc, [], [], 0, rounds) == Failed(s, 38, 0)
    ensures Drive(s, mem, Unknown, false, addr, alloc, [], [], 0, rounds) == Failed(s, 22, 0)
  {
    assert Gather(mem, []) == [];
  }

  /**
   FIOC_WRITE ends after at most two retries with the effect of one write of the server. The sizes
   are reported to the caller unless there is nothing to write: then the round that would ask for
   the place to put them is skipped.
   */
  lemma WriteOutcome(s: seq<Byte>, mem: seq<Byte>, addr: nat, alloc: Alloc, rounds: nat)
    requires rounds >= 3 && GoodArg(mem, addr)
    ensures var a := CallArg(mem, addr);
            var outs := if a.size == 0 then [] else SizeIovs(addr);
            var retries := if a.size == 0 then 1 else 2;
            var (t, code) := Put(s, a.offset, UserBuf(mem, a), alloc);
            InMemory(mem, outs) &&
            Drive(s, mem, WriteCmd, false, addr, alloc, [], [], 0, rounds)
              == match code
                 case NoMemory => Failed(s, ENOMEM, retries)
                 case Outside => Undefined
                 case Stored => Done(t, Scatter(mem, outs, Encode(|s|, 8) + Encode(|t|, 8)), a.size, retries)
  {
    var a := CallArg(mem, addr);
    GatherArg(mem, addr);
    var ins := ArgIov(addr);
    var arg := mem[addr..addr + ARG_SIZE];
    assert arg[ARG_SIZE..] == [];
    if a.size == 0 {
      assert UserBuf(mem, a) == [];
    } else {
      GatherArgAndBuf(mem, addr);
      var both := ins + [Iov(a.buf, a.size)];
      assert (arg + UserBuf(mem, a))[..8] == arg[..8] && (arg + UserBuf(mem, a))[8..16] == arg[8..16];
      assert (arg + UserBuf(mem, a))[16..24] == arg[16..24] && (arg + UserBuf(mem, a))[ARG_SIZE..] == UserBuf(mem, a);
      assert Drive(s, mem, WriteCmd, false, addr, alloc, ins, [], 1, rounds - 1)
        == Drive(s, mem, WriteCmd, false, addr, alloc, both, SizeIovs(addr), 2, rounds - 2);
    }
  }

  /** Bytes stored at one place. */
  function Store(mem: seq<Byte>, at: nat, bytes: seq<Byte>): seq<Byte>
    requires at + |bytes| <= |mem|
  {
    mem[..at] + bytes + mem[at + |bytes|..]
  }

  lemma StoreMeans(mem: seq<Byte>, at: nat, bytes: seq<Byte>)
    requires at + |bytes| <= |mem|
    ensures var m := Store(mem, at, bytes);
            m[at..at + |bytes|] == bytes && forall i :: 0 <= i < |m| && !(at <= i < at + |bytes|) ==> m[i] == mem[i]
  {
  }

  lemma StoreKeeps(mem: seq<Byte>, at: nat, bytes: seq<Byte>, lo: nat, hi: nat)
    requires at + |bytes| <= |mem| && lo <= hi <= |mem| && (hi <= at || at + |bytes| <= lo)
    ensures Store(mem, at, bytes)[lo..hi] == mem[lo..hi]
  {
    StoreMeans(mem, at, bytes);
  }

  /** Scattering at the first place, for bytes that reach beyond it. */
  lemma ScatterCons(mem: seq<Byte>, iovs: seq<Iov>, head: seq<Byte>, tail: seq<Byte>)
    requires InMemory(mem, iovs) && iovs != [] && iovs[0].len == |head|
    ensures Scatter(mem, iovs, head + tail) == Scatter(Store(mem, iovs[0].base, head), iovs[1..], tail)
  {
    assert (head + tail)[..|head|] == head && (head + tail)[|head|..] == tail;
  }

  lemma ScatterLast(mem: seq<Byte>, at: nat, size: nat, data: seq<Byte>)
    requires |data| <= size && at + size <= |mem|
    ensures Scatter(mem, [Iov(at, size)], data) == Store(mem, at, data)
  {
    assert data[..|data|] == data && [Iov(at, size)][1..] == [];
  }

  /** Both size fields, then whatever follows. */
  lemma ScatterSizes(mem: seq<Byte>, iovs: seq<Iov>, addr: nat, a: seq<Byte>, b: seq<Byte>, data: seq<Byte>)
    requires InMemory(mem, iovs) && |iovs| >= 2 && iovs[0] == Iov(addr + 24, 8) && iovs[1] == Iov(addr + 32, 8)
    requires |a| == 8 && |b| == 8
    ensures Scatter(mem, iovs, a + (b + data))
            == Scatter(Store(Store(mem, addr + 24, a), addr + 32, b), iovs[1..][1..], data)
  {
    ScatterCons(mem, iovs, a, b + data);
    ScatterCons(Store(mem, addr + 24, a), iovs[1..], b, data);
  }

  lemma SizesInMemory(mem: seq<Byte>, addr: nat, rest: seq<Iov>)
    requires addr + ARG_SIZE <= |mem| && InMemory(mem, rest)
    ensures InMemory(mem, SizeIovs(addr) + rest) && (SizeIovs(addr) + rest)[1..][1..] == rest
  {
  }

  /**
   What a completed read leaves in the caller's memory when its buffer does not overlap the size
   fields: the old and the new size, the data, and nothing else changed.
   */
  lemma SizesAndDataReported(mem: seq<Byte>, addr: nat, buf: nat, size: nat, before: nat, after: nat, data: seq<Byte>)
    requires addr + ARG_SIZE <= |mem| && buf + size <= |mem| && |data| <= size
    requires buf + size <= addr + 24 || addr + ARG_SIZE <= buf
    requires before < TWO_64 && after < TWO_64
    ensures var outs := SizeIovs(addr) + [Iov(buf, size)];
            InMemory(mem, outs) &&
            var m := Scatter(mem, outs, Encode(before, 8) + Encode(after, 8) + data);
            && Decode(m[addr + 24..addr + 32]) == before && Decode(m[addr + 32..addr + 40]) == after
            && m[buf..buf + |data|] == data
            && (forall i :: 0 <= i < |m| && !(addr + 24 <= i < addr + 40) && !(buf <= i < buf + |data|) ==>
                  m[i] == mem[i])
  {
    var a, b := Encode(before, 8), Encode(after, 8);
    SizesInMemory(mem, addr, [Iov(buf, size)]);
    assert a + b + data == a + (b + data);
    ScatterSizes(mem, SizeIovs(addr) + [Iov(buf, size)], addr, a, b, data);
    ScatterLast(Store(Store(mem, addr + 24, a), addr + 32, b), buf, size, data);
    WordRange();
    DecodeEncode(before, 8);
    DecodeEncode(after, 8);
    var m1 := Store(mem, addr + 24, a);
    var m2 := Store(m1, addr + 32, b);
    StoreMeans(mem, addr + 24, a);
    StoreMeans(m1, addr + 32, b);
    StoreMeans(m2, buf, data);
    StoreKeeps(m1, addr + 32, b, addr + 24, addr + 32);
    StoreKeeps(m2, buf, data, addr + 24, addr + 32);
    StoreKeeps(m2, buf, data, addr + 32, addr + 40);
  }

  /** The same for a completed write, which has no data to return. */
  lemma SizesReported(mem: seq<Byte>, addr: nat, before: nat, after: nat)
    requires addr + ARG_SIZE <= |mem| && before < TWO_64 && after < TWO_64
    ensures InMemory(mem, SizeIovs(addr))
    ensures var m := Scatter(mem, SizeIovs(addr), Encode(before, 8) + Encode(after, 8));
            && Decode(m[addr + 24..addr + 32]) == before && Decode(m[addr + 32..addr + 40]) == after
            && (forall i :: 0 <= i < |m| && !(addr + 24 <= i < addr + 40) ==> m[i] == mem[i])
  {
    var a, b := Encode(before, 8), Encode(after, 8);
    var m1 := Store(mem, addr + 24, a);
    SizesInMemory(mem, addr, []);
    assert SizeIovs(addr) + [] == SizeIovs(addr) && a + b == a + (b + []);
    ScatterSizes(mem, SizeIovs(addr), addr, a, b, []);
    WordRange();
    DecodeEncode(before, 8);
    DecodeEncode(after, 8);
    StoreMeans(mem, addr + 24, a);
    StoreMeans(m1, addr + 32, b);
    StoreKeeps(m1, addr + 32, b, addr + 24, addr + 32);
    assert Scatter(Store(m1, addr + 32, b), [], []) == Store(m1, addr + 32, b);
  }

  /** The fields prev_size and new_size of the caller's argument structure hold these sizes. */
  predicate HoldsSizes(mem: seq<Byte>, addr: nat, before: nat, after: nat)
    requires addr + ARG_SIZE <= |mem|
  {
    Decode(mem[addr + 24..addr + 32]) == before && Decode(mem[addr + 32..addr + 40]) == after
  }

  /**
   Provided that the memory asked for can be had, FIOC_WRITE stays inside the buffer exactly when
   offset and size of the caller do not wrap around together; then it is the plain write.
   */
  lemma WriteInsideIff(s: seq<Byte>, mem: seq<Byte>, addr: nat, alloc: Alloc, rounds: nat)
    requires rounds >= 3 && GoodArg(mem, addr) && |s| < TWO_63 && |mem| < TWO_63
    requires Expand(s, U64(CallArg(mem, addr).offset + CallArg(mem, addr).size), alloc).Some?
    ensures var a := CallArg(mem, addr);
            var r := Drive(s, mem, WriteCmd, false, addr, alloc, [], [], 0, rounds);
            && (r != Undefined <==> a.offset + a.size < TWO_64)
            && (r != Undefined ==> r.Done? && Write(s, a.offset, UserBuf(mem, a), alloc) == Some(r.store))
  {
    var a := CallArg(mem, addr);
    WriteOutcome(s, mem, addr, alloc, rounds);
    OffsetBound(mem, addr);
    PutInsideIff(s, a.offset, UserBuf(mem, a), alloc);
  }

  lemma OffsetBound(mem: seq<Byte>, addr: nat)
    requires addr + ARG_SIZE <= |mem|
    ensures CallArg(mem, addr).offset < TWO_64
  {
    DecodeBound(mem[addr..addr + ARG_SIZE][..8]);
    WordRange();
  }

  /** Memory that begins with an argument structure, whose size fields are the first 16 bytes of `rest`. */
  function MakeArg(offset: nat, buf: nat, size: nat, rest: seq<Byte>): (mem: seq<Byte>)
    ensures |mem| == 24 + |rest|
  {
    Encode(offset, 8) + Encode(buf, 8) + Encode(size, 8) + rest
  }

  lemma SliceAt(m: seq<Byte>, at: nat, x: seq<Byte>)
    requires at + |x| <= |m| && forall i :: 0 <= i < |x| ==> m[at + i] == x[i]
    ensures m[at..at + |x|] == x
  {
  }

  lemma FieldsAt(a: seq<Byte>, b: seq<Byte>, c: seq<Byte>, rest: seq<Byte>)
    requires |a| == |b| == |c| == 8 && |rest| >= 16
    ensures var arg := (a + b + c + rest)[0..ARG_SIZE];
            arg[..8] == a && arg[8..16] == b && arg[16..24] == c
    ensures (a + b + c + rest)[24..32] == rest[..8]
  {
    var m := a + b + c + rest;
    var arg := m[0..ARG_SIZE];
    SliceAt(arg, 0, a);
    SliceAt(arg, 8, b);
    SliceAt(arg, 16, c);
    SliceAt(m, 24, rest[..8]);
  }

  lemma MakeArgIs(offset: nat, buf: nat, size: nat, rest: seq<Byte>)
    requires offset < TWO_64 && buf < TWO_64 && size < TWO_64 && |rest| >= 16
    ensures CallArg(MakeArg(offset, buf, size, rest), 0) == Arg(offset, buf, size)
  {
    FieldsAt(Encode(offset, 8), Encode(buf, 8), Encode(size, 8), rest);
    WordRange();
    DecodeEncode(offset, 8);
    DecodeEncode(buf, 8);
    DecodeEncode(size, 8);
  }

  /** An argument with the offset 2^64 - 1, which is -1 as an off_t, for the one byte that follows it. */
  function MinusOneArg(): seq<Byte> {
    MakeArg(TWO_64 - 1, ARG_SIZE, 1, Zeros(17))
  }

  /** It asks for no memory at all and copies its byte outside of the buffer, whatever the device holds. */
  lemma MinusOneWritesOutside(s: seq<Byte>, alloc: Alloc, rounds: nat)
    requires rounds >= 3 && |s| < TWO_63
    ensures Drive(s, MinusOneArg(), WriteCmd, false, 0, alloc, [], [], 0, rounds) == Undefined
  {
    MakeArgIs(TWO_64 - 1, ARG_SIZE, 1, Zeros(17));
    assert U64(TWO_64 - 1 + 1) == 0;
    WriteInsideIff(s, MinusOneArg(), 0, alloc, rounds);
  }

  /**
   A successful FIOC_WRITE leaves both sizes in the caller's argument exactly when it writes at
   least one byte, or the caller had them there before.
   */
  lemma WriteReportsIff(s: seq<Byte>, mem: seq<Byte>, addr: nat, alloc: Alloc, rounds: nat)
    requires rounds >= 3 && GoodArg(mem, addr) && |s| < TWO_64
    requires Put(s, CallArg(mem, addr).offset, UserBuf(mem, CallArg(mem, addr)), alloc).1 == Stored
    ensures var a := CallArg(mem, addr);
            var t := Put(s, a.offset, UserBuf(mem, a), alloc).0;
            var r := Drive(s, mem, WriteCmd, false, addr, alloc, [], [], 0, rounds);
            && r.Done? && r.store == t && |r.mem| == |mem|
            && (HoldsSizes(r.mem, addr, |s|, |t|) <==> a.size > 0 || HoldsSizes(mem, addr, |s|, |t|))
  {
    var a := CallArg(mem, addr);
    WriteOutcome(s, mem, addr, alloc, rounds);
    var t := Put(s, a.offset, UserBuf(mem, a), alloc).0;
    assert |t| < TWO_64;
    SizesReported(mem, addr, |s|, |t|);
  }

  /** A write of no bytes to a device of one byte, with zeros in the size fields, reports no size. */
  lemma EmptyWriteReportsNothing(alloc: Alloc, rounds: nat)
    requires rounds >= 3
    ensures var mem := MakeArg(0, 0, 0, Zeros(16));
            Drive([7], mem, WriteCmd, false, 0, alloc, [], [], 0, rounds) == Done([7], mem, 0, 1)
            && !HoldsSizes(mem, 0, 1, 1)
  {
    var mem := MakeArg(0, 0, 0, Zeros(16));
    MakeArgIs(0, 0, 0, Zeros(16));
    FieldsAt(Encode(0, 8), Encode(0, 8), Encode(0, 8), Zeros(16));
    assert Zeros(16)[..8] == Zeros(8);
    DecodeZeros(8);
    WriteOutcome([7], mem, 0, alloc, rounds);
    PutNothing([7], alloc);
  }

  lemma PutNothing(s: seq<Byte>, alloc: Alloc)
    requires |s| < TWO_64
    ensures Put(s, 0, [], alloc) == (s, Stored)
  {
    assert s[..0] + [] + s[0..] == s;
  }

  lemma {:induction false} DecodeZeros(n: nat)
    ensures Decode(Zeros(n)) == 0
  {
    if n > 0 {
      assert Zeros(n)[1..] == Zeros(n - 1);
      DecodeZeros(n - 1);
    }
  }

  /** FIOC_GET_SIZE stores the size for the caller after one retry and changes nothing else. */
  lemma GetSizeOutcome(s: seq<Byte>, mem: seq<Byte>, addr: nat, alloc: Alloc, rounds: nat)
    requires rounds >= 2 && addr + 8 <= |mem| && |s| < TWO_64
    ensures var m := Store(mem, addr, Encode(|s|, 8));
            Drive(s, mem, GetSize, false, addr, alloc, [], [], 0, rounds) == Done(s, m, 0, 1)
            && Decode(m[addr..addr + 8]) == |s|
  {
    var outs := [Iov(addr, 8)];
    var size := Encode(|s|, 8);
    assert outs[1..] == [];
    assert TotalLen(outs) == 8;
    ScatterLast(mem, addr, 8, size);
    assert Drive(s, mem, GetSize, false, addr, alloc, [], [], 0, rounds)
      == Drive(s, mem, GetSize, false, addr, alloc, [], outs, 1, rounds - 1);
    StoreMeans(mem, addr, size);
    WordRange();
    DecodeEncode(|s|, 8);
  }

  /** FIOC_SET_SIZE reports success after one retry even when the buffer could not be resized. */
  lemma SetSizeOutcome(s: seq<Byte>, mem: seq<Byte>, addr: nat, alloc: Alloc, rounds: nat)
    requires rounds >= 2 && addr + 8 <= |mem|
    ensures var r := Resize(s, Decode(mem[addr..addr + 8]), alloc);
            Drive(s, mem, SetSize, false, addr, alloc, [], [], 0, rounds)
              == Done(if r.Some? then r.value else s, mem, 0, 1)
  {
    var ins := [Iov(addr, 8)];
    assert ins[1..] == [] && Gather(mem, ins) == mem[addr..addr + 8];
    assert mem[addr..addr + 8][..8] == mem[addr..addr + 8];
    assert Drive(s, mem, SetSize, false, addr, alloc, [], [], 0, rounds)
      == Drive(s, mem, SetSize, false, addr, alloc, ins, [], 1, rounds - 1);
  }

  /**
   The success that FIOC_SET_SIZE reports is true exactly when the device had the size already, or
   the size is 0, or so much memory can be had.
   */
  lemma SetSizeTrueIff(s: seq<Byte>, mem: seq<Byte>, addr: nat, alloc: Alloc, rounds: nat)
    requires rounds >= 2 && addr + 8 <= |mem|
    ensures var n := Decode(mem[addr..addr + 8]);
            var r := Drive(s, mem, SetSize, false, addr, alloc, [], [], 0, rounds);
            r.Done? && r.result == 0 && (|r.store| == n <==> n == |s| || n == 0 || alloc(n))
  {
    SetSizeOutcome(s, mem, addr, alloc, rounds);
  }

  /** A device of one byte asked to become two bytes long, with no memory left, reports success and keeps its byte. */
  lemma SetSizeReportsFailureAsSuccess(rounds: nat)
    requires rounds >= 2
    ensures Drive([7], Encode(2, 8), SetSize, false, 0, n => false, [], [], 0, rounds) == Done([7], Encode(2, 8), 0, 1)
  {
    var mem, none := Encode(2, 8), (n: nat) => false;
    WordRange();
    DecodeEncode(2, 8);
    assert mem[0..8] == mem;
    SetSizeOutcome([7], mem, 0, none, rounds);
  }
}

/** The server's globals and operations as they run. */
module Cuse {
  import opened Common
  import opened CuseModel

  class Device {
    var buf: array<Byte>
    var size: nat

    ghost predicate Valid()
      reads this
    {
      size == buf.Length
    }

    ghost function Bytes(): seq<Byte>
      reads this, buf
    {
      buf[..]
    }

    constructor ()
      ensures Valid() && Bytes() == [] && fresh(buf)
    {
      buf := new Byte[0];
      size := 0;
    }

    /** realloc either fails or gives a block of the new size with the old bytes at its front. */
    method Resize(newSize: nat, alloc: Alloc) returns (failed: bool)
      requires Valid()
      modifies this
      ensures Valid() && (buf == old(buf) || fresh(buf))
      ensures var r := CuseModel.Resize(old(Bytes()), newSize, alloc);
              failed == r.None? && Bytes() == if r.Some? then r.value else old(Bytes())
    {
      if newSize == size { return false; }
      if newSize > 0 && !alloc(newSize) { return true; }
      var newBuf := new Byte[newSize];
      forall i | 0 <= i < newSize && i < size { newBuf[i] := buf[i]; }
      if newSize > size {
        forall i | size <= i < newSize { newBuf[i] := 0; }
      }
      assert newSize <= size ==> newBuf[..] == buf[..newSize];
      assert newSize > size ==> newBuf[..] == buf[..] + Zeros(newSize - size);
      buf, size := newBuf, newSize;
      failed := false;
    }

    method Expand(newSize: nat, alloc: Alloc) returns (failed: bool)
      requires Valid()
      modifies this
      ensures Valid() && (buf == old(buf) || fresh(buf))
      ensures var r := CuseModel.Expand(old(Bytes()), newSize, alloc);
              failed == r.None? && Bytes() == if r.Some? then r.value else old(Bytes())
    {
      failed := false;
      if newSize > size { failed := Resize(newSize, alloc); }
    }

    method Read(n: nat, offset: nat) returns (out: seq<Byte>)
      requires Valid()
      ensures out == CuseModel.Read(Bytes(), offset, n)
    {
      var off, len := offset, n;
      if off >= size { off := size; }
      if len > size - off { len := size - off; }
      out := buf[off..off + len];
    }

    /** A copy that would leave the buffer is not made: what it would overwrite is not part of the model. */
    method Write(data: seq<Byte>, off: nat, alloc: Alloc) returns (code: WriteCode)
      requires Valid()
      modifies this, buf
      ensures Valid() && (buf == old(buf) || fresh(buf))
      ensures (Bytes(), code) == Put(old(Bytes()), off, data, alloc)
    {
      var failed := Expand(U64(off + |data|), alloc);
      if failed { return NoMemory; }
      if off + |data| > size { return Outside; }
      ghost var t := buf[..];
      forall i | 0 <= i < |data| { buf[off + i] := data[i]; }
      assert buf[..] == t[..off] + data + t[off + |data|..];
      return Stored;
    }

    method DoRw(addr: nat, inBuf: seq<Byte>, outSize: nat, isRead: bool, alloc: Alloc) returns (reply: Reply)
      requires Valid() && (inBuf == [] || |inBuf| >= ARG_SIZE)
      modifies this, buf
      ensures Valid() && (Bytes(), reply) == CuseModel.DoRw(old(Bytes()), addr, inBuf, outSize, isRead, alloc)
    {
      if inBuf == [] { return Retry(ArgIov(addr), []); }
      var arg, data := DecodeArg(inBuf), inBuf[ARG_SIZE..];
      if isRead {
        if outSize == 0 { return Retry(ArgIov(addr), SizeIovs(addr) + [Iov(arg.buf, arg.size)]); }
      } else {
        if arg.size != 0 && data == [] { return Retry(ArgIov(addr) + [Iov(arg.buf, arg.size)], SizeIovs(addr)); }
      }
      var curSize := size;
      if isRead {
        var out := Read(arg.size, arg.offset);
        return Data(|out|, Encode(curSize, 8) + Encode(size, 8) + out);
      }
      var code := Write(data, arg.offset, alloc);
      match code
      case NoMemory => return Error(ENOMEM);
      case Outside => return Wild;
      case Stored => return Data(|data|, Encode(curSize, 8) + Encode(size, 8));
    }

    method Ioctl(cmd: Cmd, compat: bool, addr: nat, inBuf: seq<Byte>, outSize: nat, alloc: Alloc) returns (reply: Reply)
      requires Valid() && WholeInput(cmd, inBuf)
      modifies this, buf
      ensures Valid() && (Bytes(), reply) == CuseModel.Ioctl(old(Bytes()), cmd, compat, addr, inBuf, outSize, alloc)
    {
      if compat { return Error(ENOSYS); }
      match cmd {
        case GetSize =>
          if outSize == 0 { return Retry([], [Iov(addr, 8)]); }
          return Data(0, Encode(size, 8));
        case SetSize =>
          if inBuf == [] { return Retry([Iov(addr, 8)], []); }
          var _ := Resize(Decode(inBuf[..8]), alloc);
          return Data(0, []);
        case ReadCmd => reply := DoRw(addr, inBuf, outSize, true, alloc);
        case WriteCmd => reply := DoRw(addr, inBuf, outSize, false, alloc);
        case Unknown => return Error(EINVAL);
      }
    }
  }
}
