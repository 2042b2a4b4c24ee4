/**
 The RAM block device of Tasks/blkdev/block_mod.LDD3/block_mod_s.c and its three request modes.

 A bio has one segment, whose buffer is named by its address: two bios may share a buffer. Sector
 numbers are as wide as 64-bit byte offsets allow; simple_request keeps only their low 32 bits.
 Each mode's loop is proved against a function on values; the lemmas compare those functions.
 */
module BlockDev {
  import opened Common

  const SECTOR: nat := 512
  const EIO: int := 5

  type SectorNo = s: int | 0 <= s < TWO_63 / 512
  type Count = n: int | 0 <= n < TWO_32
  type Addr = nat

  datatype Bio = Bio(sector: SectorNo, nsect: Count, buf: Addr)

  /** A request fetched from the queue; `fs` is blk_fs_request. */
  datatype Request = Request(fs: bool, write: bool, bios: seq<Bio>)

  /** The device's memory and the pages the bios point to. */
  datatype World = World(disk: seq<Byte>, mem: map<Addr, seq<Byte>>)

  /** Copies change neither the size of the disk nor which buffers there are, nor their sizes. */
  predicate SameShape(w: World, r: World) {
    |r.disk| == |w.disk| && r.mem.Keys == w.mem.Keys && forall a :: a in w.mem ==> |r.mem[a]| == |w.mem[a]|
  }

  predicate InRange(size: nat, b: Bio) {
    b.sector * SECTOR + b.nsect * SECTOR <= size
  }

  predicate BioOk(mem: map<Addr, seq<Byte>>, b: Bio) {
    b.buf in mem && |mem[b.buf]| >= b.nsect * SECTOR
  }

  predicate BiosOk(mem: map<Addr, seq<Byte>>, bios: seq<Bio>) {
    forall i :: 0 <= i < |bios| ==> BioOk(mem, bios[i])
  }

  function Splice(s: seq<Byte>, at: nat, t: seq<Byte>): seq<Byte>
    requires at + |t| <= |s|
  {
    s[..at] + t + s[at + |t|..]
  }

  /** One call of transfer(): a copy in one direction, or nothing when the range exceeds the device. */
  function Apply(w: World, b: Bio, write: bool): (r: World)
    requires BioOk(w.mem, b)
    ensures SameShape(w, r)
  {
    var off, n := b.sector * SECTOR, b.nsect * SECTOR;
    if off + n > |w.disk| then w
    else if write then w.(disk := Splice(w.disk, off, w.mem[b.buf][..n]))
    else w.(mem := w.mem[b.buf := Splice(w.mem[b.buf], 0, w.disk[off..off + n])])
  }

  function Status(size: nat, b: Bio): int {
    if InRange(size, b) then 0 else -EIO
  }

  /** Each bio once, in order: xfer_request, and make_request called for each bio. */
  function RunBios(w: World, bios: seq<Bio>, write: bool): (r: World)
    requires BiosOk(w.mem, bios)
    ensures SameShape(w, r)
    decreases |bios|
  {
    if bios == [] then w else RunBios(Apply(w, bios[0], write), bios[1..], write)
  }

  /** Bios are carried out one after the other, in order. */
  lemma {:induction false} RunAppend(w: World, bios: seq<Bio>, cios: seq<Bio>, write: bool)
    requires BiosOk(w.mem, bios) && BiosOk(w.mem, cios)
    ensures BiosOk(w.mem, bios + cios)
    ensures RunBios(w, bios + cios, write) == RunBios(RunBios(w, bios, write), cios, write)
    decreases |bios|
  {
    forall i | 0 <= i < |bios + cios| ensures BioOk(w.mem, (bios + cios)[i]) {
      assert i < |bios| ==> BioOk(w.mem, bios[i]);
    }
    if bios == [] {
      assert bios + cios == cios;
    } else {
      assert BioOk(w.mem, bios[0]) && (bios + cios)[1..] == bios[1..] + cios;
      RunAppend(Apply(w, bios[0], write), bios[1..], cios, write);
    }
  }

  lemma RunOne(w: World, b: Bio, write: bool)
    requires BioOk(w.mem, b)
    ensures BiosOk(w.mem, [b]) && RunBios(w, [b], write) == Apply(w, b, write)
  {
    assert [b][1..] == [];
    assert RunBios(Apply(w, b, write), [], write) == Apply(w, b, write);
  }

  /** full_request: all remaining bios are transferred before each completion of one of them. */
  function RunFull(w: World, bios: seq<Bio>, write: bool): (r: World)
    requires BiosOk(w.mem, bios)
    ensures SameShape(w, r)
    decreases |bios|
  {
    if bios == [] then w else RunFull(RunBios(w, bios, write), bios[1..], write)
  }

  /** Position `p` of the device is one of the bytes of the piece. */
  predicate InPiece(b: Bio, p: int) {
    512 * b.sector <= p < 512 * (b.sector + b.nsect)
  }

  /** A piece is refused with -EIO exactly when one of its bytes lies beyond the device, or its start if it has none. */
  lemma StatusMeans(size: nat, b: Bio)
    ensures Status(size, b) == 0 || Status(size, b) == -5
    ensures b.nsect > 0 ==> (Status(size, b) == 0 <==> forall p :: InPiece(b, p) ==> p < size)
    ensures b.nsect == 0 ==> (Status(size, b) == 0 <==> 512 * b.sector <= size)
  {
    assert b.nsect > 0 ==> InPiece(b, 512 * (b.sector + b.nsect) - 1);
  }

  /** A write changes exactly its bytes of the device, a read the front of its buffer, a refused piece nothing. */
  lemma ApplyMeans(w: World, b: Bio, write: bool)
    requires BioOk(w.mem, b)
    ensures var r := Apply(w, b, write);
            var n := 512 * b.nsect;
            && (Status(|w.disk|, b) != 0 ==> r == w)
            && (Status(|w.disk|, b) == 0 && write ==>
                  r.mem == w.mem && forall p :: 0 <= p < |w.disk| ==>
                    r.disk[p] == if InPiece(b, p) then w.mem[b.buf][p - 512 * b.sector] else w.disk[p])
            && (Status(|w.disk|, b) == 0 && !write ==>
                  && r.disk == w.disk && |r.mem[b.buf]| == |w.mem[b.buf]| && n <= |w.mem[b.buf]|
                  && r.mem[b.buf][..n] == w.disk[512 * b.sector..512 * b.sector + n]
                  && r.mem[b.buf][n..] == w.mem[b.buf][n..]
                  && forall a :: a in w.mem && a != b.buf ==> r.mem[a] == w.mem[a])
  {
  }

  // ------------------------------------------------------------------ last writer wins

  predicate Covers(b: Bio, p: nat) {
    b.sector * SECTOR <= p < b.sector * SECTOR + b.nsect * SECTOR
  }

  /** The byte that the last accepted bio covering disk position `p` brings, if there is one. */
  function LastWrite(mem: map<Addr, seq<Byte>>, size: nat, bios: seq<Bio>, p: nat): Option<Byte>
    requires BiosOk(mem, bios)
  {
    if bios == [] then None
    else
      var later := LastWrite(mem, size, bios[1..], p);
      var b := bios[0];
      assert BioOk(mem, b);
      if later.Some? then later
      else if InRange(size, b) && Covers(b, p) then Some(mem[b.buf][p - b.sector * SECTOR])
      else None
  }

  /** The byte that the last accepted bio reading into position `q` of buffer `a` fetches, if there is one. */
  function LastRead(disk: seq<Byte>, bios: seq<Bio>, a: Addr, q: nat): Option<Byte> {
    if bios == [] then None
    else
      var later := LastRead(disk, bios[1..], a, q);
      var b := bios[0];
      if later.Some? then later
      else if InRange(|disk|, b) && b.buf == a && q < b.nsect * SECTOR then Some(disk[b.sector * SECTOR + q])
      else None
  }

  function Or(o: Option<Byte>, default: Byte): Byte {
    match o
    case Some(v) => v
    case None => default
  }

  lemma {:induction false} WritesAt(w: World, bios: seq<Bio>, p: nat)
    requires BiosOk(w.mem, bios) && p < |w.disk|
    ensures RunBios(w, bios, true).mem == w.mem
    ensures RunBios(w, bios, true).disk[p] == Or(LastWrite(w.mem, |w.disk|, bios, p), w.disk[p])
    decreases |bios|
  {
    if bios != [] {
      WritesAt(Apply(w, bios[0], true), bios[1..], p);
    }
  }

  lemma {:induction false} WritesKeepMemory(w: World, bios: seq<Bio>)
    requires BiosOk(w.mem, bios)
    ensures RunBios(w, bios, true).mem == w.mem
    decreases |bios|
  {
    if bios != [] { WritesKeepMemory(Apply(w, bios[0], true), bios[1..]); }
  }

  lemma {:induction false} ReadsKeepDisk(w: World, bios: seq<Bio>)
    requires BiosOk(w.mem, bios)
    ensures RunBios(w, bios, false).disk == w.disk
    decreases |bios|
  {
    if bios != [] { ReadsKeepDisk(Apply(w, bios[0], false), bios[1..]); }
  }

  lemma {:induction false} ReadsAt(w: World, bios: seq<Bio>, a: Addr, q: nat)
    requires BiosOk(w.mem, bios) && a in w.mem && q < |w.mem[a]|
    ensures RunBios(w, bios, false).mem[a][q] == Or(LastRead(w.disk, bios, a, q), w.mem[a][q])
    decreases |bios|
  {
    if bios != [] {
      var r := Apply(w, bios[0], false);
      ReadsAt(r, bios[1..], a, q);
      assert r.disk == w.disk && BioOk(w.mem, bios[0]);
      assert r.mem[a][q] == Or(LastRead(w.disk, [bios[0]], a, q), w.mem[a][q]) by {
        assert [bios[0]][1..] == [];
      }
    }
  }

  /** Transferring the same bios again changes nothing, even when they overlap or share buffers. */
  lemma RunTwice(w: World, bios: seq<Bio>, write: bool)
    requires BiosOk(w.mem, bios)
    ensures RunBios(RunBios(w, bios, write), bios, write) == RunBios(w, bios, write)
  {
    var once := RunBios(w, bios, write);
    var twice := RunBios(once, bios, write);
    if write {
      WritesKeepMemory(w, bios);
      WritesKeepMemory(once, bios);
      forall p | 0 <= p < |w.disk| ensures twice.disk[p] == once.disk[p] {
        WritesAt(w, bios, p);
        WritesAt(once, bios, p);
      }
      assert twice.disk == once.disk;
    } else {
      ReadsKeepDisk(w, bios);
      ReadsKeepDisk(once, bios);
      forall a | a in w.mem ensures twice.mem[a] == once.mem[a] {
        forall q | 0 <= q < |w.mem[a]| ensures twice.mem[a][q] == once.mem[a][q] {
          ReadsAt(w, bios, a, q);
          ReadsAt(once, bios, a, q);
        }
      }
      assert twice.mem == once.mem;
    }
  }

  /** The repeated transfers of full_request leave what one transfer per bio leaves. */
  lemma {:induction false} FullIsSimple(w: World, bios: seq<Bio>, write: bool)
    requires BiosOk(w.mem, bios)
    ensures RunFull(w, bios, write) == RunBios(w, bios, write)
    decreases |bios|
  {
    if bios != [] {
      var once := RunBios(w, bios, write);
      FullIsSimple(once, bios[1..], write);
      RunTwice(Apply(w, bios[0], write), bios[1..], write);
    }
  }

  // ------------------------------------------------------------------ a whole queue

  predicate RequestOk(mem: map<Addr, seq<Byte>>, r: Request) {
    BiosOk(mem, r.bios) && (r.fs ==> r.bios != [])
  }

  predicate QueueOk(mem: map<Addr, seq<Byte>>, q: seq<Request>) {
    forall i :: 0 <= i < |q| ==> RequestOk(mem, q[i])
  }

  /** Requests that do not come from a file system are skipped. */
  function RunQueue(w: World, q: seq<Request>): (r: World)
    requires QueueOk(w.mem, q)
    ensures SameShape(w, r)
    decreases |q|
  {
    if q == [] then w
    else RunQueue(if q[0].fs then RunBios(w, q[0].bios, q[0].write) else w, q[1..])
  }

  function RunQueueFull(w: World, q: seq<Request>): (r: World)
    requires QueueOk(w.mem, q)
    ensures SameShape(w, r)
    decreases |q|
  {
    if q == [] then w
    else RunQueueFull(if q[0].fs then RunFull(w, q[0].bios, q[0].write) else w, q[1..])
  }

  /** So are requests; one that does not come from a file system is skipped. */
  lemma {:induction false} QueueAppend(w: World, q: seq<Request>, r: Request)
    requires QueueOk(w.mem, q) && RequestOk(w.mem, r)
    ensures QueueOk(w.mem, q + [r])
    ensures RunQueue(w, q + [r])
            == if r.fs then RunBios(RunQueue(w, q), r.bios, r.write) else RunQueue(w, q)
    decreases |q|
  {
    forall i | 0 <= i < |q + [r]| ensures RequestOk(w.mem, (q + [r])[i]) {
      assert i < |q| ==> RequestOk(w.mem, q[i]);
    }
    if q == [] {
      assert q + [r] == [r] && [r][1..] == [];
      var last := if r.fs then RunBios(w, r.bios, r.write) else w;
      assert RunQueue(last, []) == last;
    } else {
      assert RequestOk(w.mem, q[0]) && (q + [r])[1..] == q[1..] + [r];
      QueueAppend(if q[0].fs then RunBios(w, q[0].bios, q[0].write) else w, q[1..], r);
    }
  }

  /** Repeating the transfers makes no difference for a queue either. */
  lemma {:induction false} FullQueueIsOnce(w: World, q: seq<Request>)
    requires QueueOk(w.mem, q)
    ensures RunQueueFull(w, q) == RunQueue(w, q)
    decreases |q|
  {
    if q != [] {
      if q[0].fs { FullIsSimple(w, q[0].bios, q[0].write); }
      FullQueueIsOnce(if q[0].fs then RunBios(w, q[0].bios, q[0].write) else w, q[1..]);
    }
  }

  // ------------------------------------------------------------------ sectors in 32 bits

  /** The bio as simple_request sees it, with the sector number in an unsigned int. */
  function Narrow(b: Bio): Bio {
    b.(sector := U32(b.sector))
  }

  function NarrowBios(bios: seq<Bio>): (r: seq<Bio>)
    ensures |r| == |bios| && forall i :: 0 <= i < |bios| ==> r[i] == Narrow(bios[i])
  {
    seq(|bios|, i requires 0 <= i < |bios| => Narrow(bios[i]))
  }

  function NarrowRequest(r: Request): Request {
    r.(bios := NarrowBios(r.bios))
  }

  /** The queue as simple_request carries it out: RunQueue of it is that mode. */
  function NarrowQueue(q: seq<Request>): (r: seq<Request>)
    ensures |r| == |q| && forall i :: 0 <= i < |q| ==> r[i] == NarrowRequest(q[i])
  {
    seq(|q|, i requires 0 <= i < |q| => NarrowRequest(q[i]))
  }

  lemma NarrowTail(bios: seq<Bio>)
    requires bios != []
    ensures NarrowBios(bios)[1..] == NarrowBios(bios[1..])
  {
  }

  lemma NarrowQueueTail(q: seq<Request>)
    requires q != []
    ensures NarrowQueue(q)[1..] == NarrowQueue(q[1..])
  {
  }

  lemma NarrowOk(mem: map<Addr, seq<Byte>>, q: seq<Request>)
    requires QueueOk(mem, q)
    ensures QueueOk(mem, NarrowQueue(q))
  {
    forall i | 0 <= i < |q| ensures RequestOk(mem, NarrowQueue(q)[i]) {
      assert RequestOk(mem, q[i]);
      NarrowBiosOk(mem, q[i].bios);
    }
  }

  lemma NarrowBiosOk(mem: map<Addr, seq<Byte>>, bios: seq<Bio>)
    requires BiosOk(mem, bios)
    ensures BiosOk(mem, NarrowBios(bios))
  {
    forall i | 0 <= i < |bios| ensures BioOk(mem, NarrowBios(bios)[i]) {
      assert BioOk(mem, bios[i]);
    }
  }

  /** The sector number fits, or nothing is copied, or even the low 32 bits name a range beyond the device. */
  predicate Harmless(size: nat, b: Bio) {
    b.sector < TWO_32 || b.nsect == 0 || !InRange(size, Narrow(b))
  }

  predicate HarmlessBios(size: nat, bios: seq<Bio>) {
    forall i :: 0 <= i < |bios| ==> Harmless(size, bios[i])
  }

  predicate HarmlessQueue(size: nat, q: seq<Request>) {
    forall i :: 0 <= i < |q| && q[i].fs ==> HarmlessBios(size, q[i].bios)
  }

  lemma ApplyNothing(w: World, b: Bio, write: bool)
    requires BioOk(w.mem, b) && b.nsect == 0
    ensures Apply(w, b, write) == w
  {
    assert Splice(w.mem[b.buf], 0, []) == w.mem[b.buf];
    assert b.sector * SECTOR <= |w.disk| ==> Splice(w.disk, b.sector * SECTOR, []) == w.disk;
    assert w.mem[b.buf := w.mem[b.buf]] == w.mem;
  }

  lemma ApplyHarmless(w: World, b: Bio, write: bool)
    requires BioOk(w.mem, b) && Harmless(|w.disk|, b)
    ensures Apply(w, Narrow(b), write) == Apply(w, b, write)
  {
    if b.sector < TWO_32 {
      assert Narrow(b) == b;
    } else if b.nsect == 0 {
      ApplyNothing(w, b, write);
      ApplyNothing(w, Narrow(b), write);
    }
  }

  lemma {:induction false} RunHarmless(w: World, bios: seq<Bio>, write: bool)
    requires BiosOk(w.mem, bios) && HarmlessBios(|w.disk|, bios)
    ensures BiosOk(w.mem, NarrowBios(bios)) && RunBios(w, NarrowBios(bios), write) == RunBios(w, bios, write)
    decreases |bios|
  {
    NarrowBiosOk(w.mem, bios);
    if bios != [] {
      assert BioOk(w.mem, bios[0]) && Harmless(|w.disk|, bios[0]);
      ApplyHarmless(w, bios[0], write);
      NarrowTail(bios);
      RunHarmless(Apply(w, bios[0], write), bios[1..], write);
    }
  }

  lemma {:induction false} RunQueueHarmless(w: World, q: seq<Request>)
    requires QueueOk(w.mem, q) && HarmlessQueue(|w.disk|, q)
    ensures QueueOk(w.mem, NarrowQueue(q)) && RunQueue(w, NarrowQueue(q)) == RunQueue(w, q)
    decreases |q|
  {
    NarrowOk(w.mem, q);
    if q != [] {
      assert RequestOk(w.mem, q[0]) && (q[0].fs ==> HarmlessBios(|w.disk|, q[0].bios));
      if q[0].fs { RunHarmless(w, q[0].bios, q[0].write); }
      NarrowQueueTail(q);
      RunQueueHarmless(if q[0].fs then RunBios(w, q[0].bios, q[0].write) else w, q[1..]);
    }
  }

  /** Both queue modes leave the same disk and the same buffers, for every queue of harmless pieces. */
  lemma QueueModesAgree(w: World, q: seq<Request>)
    requires QueueOk(w.mem, q) && HarmlessQueue(|w.disk|, q)
    ensures QueueOk(w.mem, NarrowQueue(q)) && RunQueueFull(w, q) == RunQueue(w, NarrowQueue(q))
  {
    FullQueueIsOnce(w, q);
    RunQueueHarmless(w, q);
  }

  function Filled(n: nat, v: Byte): (s: seq<Byte>)
    ensures |s| == n && forall i :: 0 <= i < n ==> s[i] == v
  {
    seq(n, _ => v)
  }

  /** On a device of an int size all modes treat one piece alike, whatever the data, exactly if it is harmless. */
  lemma PieceAgreesIff(size: nat, b: Bio, write: bool)
    requires size < TWO_31
    ensures (forall w: World :: |w.disk| == size && BioOk(w.mem, b) ==>
               Apply(w, Narrow(b), write) == Apply(w, b, write))
            <==> Harmless(size, b)
  {
    if Harmless(size, b) {
      forall w: World | |w.disk| == size && BioOk(w.mem, b)
        ensures Apply(w, Narrow(b), write) == Apply(w, b, write)
      {
        ApplyHarmless(w, b, write);
      }
    } else {
      var w := World(Filled(size, 0), map[b.buf := Filled(b.nsect * SECTOR, 1)]);
      assert BioOk(w.mem, b);
      assert Apply(w, b, write) == w;
      var r := Apply(w, Narrow(b), write);
      if write {
        assert r.disk[Narrow(b).sector * SECTOR] == 1;
      } else {
        assert r.mem[b.buf][0] == 0;
      }
    }
  }

  /** __blk_end_request_cur: completes the current bio; the next request is fetched when none is left. */
  function EndCur(q: seq<Request>): (r: seq<Request>)
    requires q != [] && q[0].bios != []
  {
    if |q[0].bios| == 1 then q[1..] else [q[0].(bios := q[0].bios[1..])] + q[1..]
  }

  /** The completion codes reported: per bio by simple_request, -EIO once for a skipped request. */
  function SimpleStatuses(size: nat, q: seq<Request>): seq<int>
    decreases |q|, if q == [] then 0 else |q[0].bios|
  {
    if q == [] then []
    else if !q[0].fs then [-EIO] + SimpleStatuses(size, q[1..])
    else if q[0].bios == [] then SimpleStatuses(size, q[1..])
    else [Status(size, q[0].bios[0])] + SimpleStatuses(size, EndCur(q))
  }

  /** full_request completes every bio with 0. */
  function FullStatuses(q: seq<Request>): seq<int>
    decreases |q|, if q == [] then 0 else |q[0].bios|
  {
    if q == [] then []
    else if !q[0].fs then [-EIO] + FullStatuses(q[1..])
    else if q[0].bios == [] then FullStatuses(q[1..])
    else [0] + FullStatuses(EndCur(q))
  }

  predicate BiosInRange(size: nat, bios: seq<Bio>) {
    forall i :: 0 <= i < |bios| ==> InRange(size, bios[i])
  }

  predicate AllInRange(size: nat, q: seq<Request>) {
    forall i :: 0 <= i < |q| && q[i].fs ==> BiosInRange(size, q[i].bios)
  }

  lemma ConsEqual(a: int, b: seq<int>, c: int, d: seq<int>)
    ensures [a] + b == [c] + d <==> a == c && b == d
  {
    if [a] + b == [c] + d {
      assert ([a] + b)[0] == ([c] + d)[0];
      assert ([a] + b)[1..] == b && ([c] + d)[1..] == d;
    }
  }

  lemma Shift(a: seq<int>, x: int, b: seq<int>)
    ensures a + ([x] + b) == (a + [x]) + b
  {
  }

  lemma AllInRangeTail(size: nat, q: seq<Request>)
    requires q != []
    ensures AllInRange(size, q) <==> (q[0].fs ==> BiosInRange(size, q[0].bios)) && AllInRange(size, q[1..])
  {
  }

  lemma AllInRangeEndCur(size: nat, q: seq<Request>)
    requires q != [] && q[0].fs && q[0].bios != []
    ensures AllInRange(size, q) <==> InRange(size, q[0].bios[0]) && AllInRange(size, EndCur(q))
  {
    var bios := q[0].bios;
    assert BiosInRange(size, bios) <==> InRange(size, bios[0]) && BiosInRange(size, bios[1..]);
    AllInRangeTail(size, q);
    if |bios| > 1 {
      AllInRangeTail(size, EndCur(q));
      assert EndCur(q)[1..] == q[1..];
    }
  }

  /**
   SimpleStatuses of the queue as it stands are the codes of the real ranges: those that full_request
   reports are true exactly when every piece is in range.
   */
  lemma {:induction false} AllSucceedIff(size: nat, q: seq<Request>)
    ensures SimpleStatuses(size, q) == FullStatuses(q) <==> AllInRange(size, q)
    decreases |q|, if q == [] then 0 else |q[0].bios|
  {
    if q != [] {
      if q[0].fs && q[0].bios != [] {
        AllSucceedIff(size, EndCur(q));
        AllInRangeEndCur(size, q);
        ConsEqual(Status(size, q[0].bios[0]), SimpleStatuses(size, EndCur(q)), 0, FullStatuses(EndCur(q)));
      } else {
        AllSucceedIff(size, q[1..]);
        AllInRangeTail(size, q);
        ConsEqual(-EIO, SimpleStatuses(size, q[1..]), -EIO, FullStatuses(q[1..]));
      }
    }
  }

  lemma NarrowEndCur(q: seq<Request>)
    requires q != [] && q[0].bios != []
    ensures NarrowQueue(q) != [] && NarrowQueue(q)[0].bios != []
    ensures EndCur(NarrowQueue(q)) == NarrowQueue(EndCur(q))
  {
    NarrowQueueTail(q);
    NarrowTail(q[0].bios);
    if |q[0].bios| > 1 {
      var head := q[0].(bios := q[0].bios[1..]);
      assert NarrowQueue([head] + q[1..]) == [NarrowRequest(head)] + NarrowQueue(q[1..]);
    }
  }

  lemma {:induction false} FullStatusesNarrow(q: seq<Request>)
    ensures FullStatuses(NarrowQueue(q)) == FullStatuses(q)
    decreases |q|, if q == [] then 0 else |q[0].bios|
  {
    if q != [] {
      NarrowQueueTail(q);
      if q[0].fs && q[0].bios != [] {
        NarrowEndCur(q);
        FullStatusesNarrow(EndCur(q));
      } else {
        FullStatusesNarrow(q[1..]);
      }
    }
  }

  /** One code per piece. */
  function Codes(size: nat, bios: seq<Bio>): (s: seq<int>)
    ensures |s| == |bios| && forall i :: 0 <= i < |bios| ==> s[i] == Status(size, bios[i])
  {
    if bios == [] then [] else [Status(size, bios[0])] + Codes(size, bios[1..])
  }

  lemma CodesCons(size: nat, b: Bio, bios: seq<Bio>)
    ensures Codes(size, [b] + bios) == [Status(size, b)] + Codes(size, bios)
  {
    assert ([b] + bios)[1..] == bios;
  }

  /** A queue of file system requests gets one code per piece: in the simple mode its status, */
  lemma {:induction false} SimpleStatusesMean(size: nat, q: seq<Request>)
    requires forall i :: 0 <= i < |q| ==> q[i].fs
    ensures SimpleStatuses(size, q) == Codes(size, Flat(q))
    decreases |q|, if q == [] then 0 else |q[0].bios|
  {
    if q != [] {
      if q[0].bios == [] {
        SimpleStatusesMean(size, q[1..]);
        assert [] + Flat(q[1..]) == Flat(q[1..]);
      } else {
        FlatEndCur(q);
        EndCurAllFs(q);
        SimpleStatusesMean(size, EndCur(q));
        CodesCons(size, q[0].bios[0], Flat(EndCur(q)));
      }
    }
  }

  /** and in the full mode 0. */
  lemma {:induction false} FullStatusesMean(q: seq<Request>)
    requires forall i :: 0 <= i < |q| ==> q[i].fs
    ensures |FullStatuses(q)| == |Flat(q)| && forall i :: 0 <= i < |Flat(q)| ==> FullStatuses(q)[i] == 0
    decreases |q|, if q == [] then 0 else |q[0].bios|
  {
    if q != [] {
      if q[0].bios == [] {
        FullStatusesMean(q[1..]);
        assert [] + Flat(q[1..]) == Flat(q[1..]);
      } else {
        FlatEndCur(q);
        EndCurAllFs(q);
        FullStatusesMean(EndCur(q));
        assert FullStatuses(q) == [0] + FullStatuses(EndCur(q));
      }
    }
  }

  lemma FlatCons(r: Request, q: seq<Request>)
    requires r.fs
    ensures Flat([r] + q) == r.bios + Flat(q)
  {
    assert ([r] + q)[1..] == q;
  }

  lemma Reassociate(a: seq<Bio>, b: seq<Bio>, c: seq<Bio>)
    ensures (a + b) + c == a + (b + c)
  {
  }

  lemma FlatEndCur(q: seq<Request>)
    requires q != [] && q[0].fs && q[0].bios != []
    ensures Flat(q) == [q[0].bios[0]] + Flat(EndCur(q))
  {
    var bios, tail := q[0].bios, q[1..];
    assert q == [q[0]] + tail;
    FlatCons(q[0], tail);
    if |bios| > 1 {
      FlatCons(q[0].(bios := bios[1..]), tail);
      assert bios == [bios[0]] + bios[1..];
      Reassociate([bios[0]], bios[1..], Flat(tail));
    } else {
      assert bios == [bios[0]];
    }
  }

  lemma EndCurAllFs(q: seq<Request>)
    requires q != [] && q[0].bios != [] && forall i :: 0 <= i < |q| ==> q[i].fs
    ensures forall i :: 0 <= i < |EndCur(q)| ==> EndCur(q)[i].fs
  {
  }

  /** Requests that do not come from a file system are all refused with -EIO, and nothing is transferred. */
  lemma {:induction false} OthersRefused(w: World, q: seq<Request>)
    requires QueueOk(w.mem, q) && forall i :: 0 <= i < |q| ==> !q[i].fs
    ensures RunQueue(w, q) == w
    ensures |SimpleStatuses(|w.disk|, q)| == |FullStatuses(q)| == |q|
    ensures forall i :: 0 <= i < |q| ==> SimpleStatuses(|w.disk|, q)[i] == FullStatuses(q)[i] == -5
    decreases |q|
  {
    if q != [] {
      OthersRefused(w, q[1..]);
    }
  }

  /** The two queue modes report the same codes exactly when every piece, with its sector in 32 bits, is in range. */
  lemma StatusesAgreeIff(size: nat, q: seq<Request>)
    ensures SimpleStatuses(size, NarrowQueue(q)) == FullStatuses(q) <==> AllInRange(size, NarrowQueue(q))
  {
    AllSucceedIff(size, NarrowQueue(q));
    FullStatusesNarrow(q);
  }

  /** simple_request gives a piece the code of its real range exactly if its sector is not cut down into the device. */
  lemma StatusTrueIff(size: nat, b: Bio)
    requires size < TWO_31
    ensures Status(size, Narrow(b)) == Status(size, b) <==> b.sector < TWO_32 || !InRange(size, Narrow(b))
  {
  }

  // ------------------------------------------------------------------ queues of writes

  /** The buffer and the place in it from which the last accepted bio covering disk position `p` is written. */
  function Writer(size: nat, bios: seq<Bio>, p: nat): Option<(Addr, nat)> {
    if bios == [] then None
    else
      var later := Writer(size, bios[1..], p);
      var b := bios[0];
      if later.Some? then later
      else if InRange(size, b) && Covers(b, p) then Some((b.buf, p - b.sector * SECTOR))
      else None
  }

  lemma {:induction false} WriterGives(mem: map<Addr, seq<Byte>>, size: nat, bios: seq<Bio>, p: nat)
    requires BiosOk(mem, bios)
    ensures var x := Writer(size, bios, p);
            && (x.None? ==> LastWrite(mem, size, bios, p) == None)
            && (x.Some? ==> x.value.0 in mem && x.value.1 < |mem[x.value.0]|
                            && LastWrite(mem, size, bios, p) == Some(mem[x.value.0][x.value.1]))
  {
    if bios != [] {
      assert BioOk(mem, bios[0]);
      WriterGives(mem, size, bios[1..], p);
    }
  }

  predicate SameWriters(size: nat, bios: seq<Bio>, cios: seq<Bio>) {
    forall p :: 0 <= p < size ==> Writer(size, bios, p) == Writer(size, cios, p)
  }

  lemma SameWritersRun(w: World, bios: seq<Bio>, cios: seq<Bio>)
    requires BiosOk(w.mem, bios) && BiosOk(w.mem, cios) && SameWriters(|w.disk|, bios, cios)
    ensures RunBios(w, bios, true) == RunBios(w, cios, true)
  {
    WritesKeepMemory(w, bios);
    WritesKeepMemory(w, cios);
    var r, s := RunBios(w, bios, true), RunBios(w, cios, true);
    forall p | 0 <= p < |w.disk| ensures r.disk[p] == s.disk[p] {
      WritesAt(w, bios, p);
      WritesAt(w, cios, p);
      WriterGives(w.mem, |w.disk|, bios, p);
      WriterGives(w.mem, |w.disk|, cios, p);
    }
    assert r.disk == s.disk;
  }

  /** A device of zeros with large buffers of zeros, but for a one at the place `x`. */
  function Marked(size: nat, addrs: set<Addr>, x: (Addr, nat)): (w: World)
    ensures |w.disk| == size && w.mem.Keys == addrs
    ensures forall p :: 0 <= p < size ==> w.disk[p] == 0
    ensures forall a :: a in addrs ==> |w.mem[a]| == TWO_32 * SECTOR
    ensures forall a, o :: a in addrs && 0 <= o < TWO_32 * SECTOR ==> w.mem[a][o] == if (a, o) == x then 1 else 0
  {
    World(Filled(size, 0), map a | a in addrs :: seq(TWO_32 * SECTOR, o => if (a, o) == x then 1 else 0))
  }

  lemma MarkedOk(w: World, bios: seq<Bio>)
    requires forall a :: a in w.mem ==> |w.mem[a]| == TWO_32 * SECTOR
    requires forall i :: 0 <= i < |bios| ==> bios[i].buf in w.mem
    ensures BiosOk(w.mem, bios)
  {
    forall i | 0 <= i < |bios| ensures BioOk(w.mem, bios[i]) {}
  }

  /** The mark tells apart two lists of writes of which only the first brings it to position `p`. */
  lemma MarkTells(size: nat, addrs: set<Addr>, bios: seq<Bio>, cios: seq<Bio>, p: nat)
    requires p < size && Writer(size, bios, p).Some? && Writer(size, bios, p) != Writer(size, cios, p)
    requires var w := Marked(size, addrs, Writer(size, bios, p).value); BiosOk(w.mem, bios) && BiosOk(w.mem, cios)
    ensures var w := Marked(size, addrs, Writer(size, bios, p).value);
            RunBios(w, bios, true) != RunBios(w, cios, true)
  {
    var w := Marked(size, addrs, Writer(size, bios, p).value);
    WritesAt(w, bios, p);
    WritesAt(w, cios, p);
    WriterGives(w.mem, size, bios, p);
    WriterGives(w.mem, size, cios, p);
    assert RunBios(w, bios, true).disk[p] == 1;
    assert RunBios(w, cios, true).disk[p] == 0;
  }

  predicate WritesOnly(q: seq<Request>) {
    forall i :: 0 <= i < |q| && q[i].fs ==> q[i].write && q[i].bios != []
  }

  /** The bios of the requests that are carried out, one after the other. */
  function Flat(q: seq<Request>): seq<Bio> {
    if q == [] then [] else (if q[0].fs then q[0].bios else []) + Flat(q[1..])
  }

  lemma {:induction false} RunFlat(w: World, q: seq<Request>)
    requires QueueOk(w.mem, q) && WritesOnly(q)
    ensures BiosOk(w.mem, Flat(q)) && RunQueue(w, q) == RunBios(w, Flat(q), true)
    decreases |q|
  {
    if q != [] {
      assert RequestOk(w.mem, q[0]);
      RunFlat(w, q[1..]);
      if q[0].fs {
        var r := RunBios(w, q[0].bios, true);
        RunFlat(r, q[1..]);
        RunAppend(w, q[0].bios, Flat(q[1..]), true);
      } else {
        assert [] + Flat(q[1..]) == Flat(q[1..]);
      }
    }
  }

  lemma {:induction false} FlatNarrow(q: seq<Request>)
    ensures Flat(NarrowQueue(q)) == NarrowBios(Flat(q))
    decreases |q|
  {
    if q != [] {
      NarrowQueueTail(q);
      FlatNarrow(q[1..]);
    }
  }

  /** The addresses of all buffers of a queue. */
  function Addrs(q: seq<Request>): (s: set<Addr>)
    ensures forall i, j :: 0 <= i < |q| && 0 <= j < |q[i].bios| ==> q[i].bios[j].buf in s
  {
    set i, j | 0 <= i < |q| && 0 <= j < |q[i].bios| :: q[i].bios[j].buf
  }

  lemma MarkedQueueOk(q: seq<Request>, size: nat, x: (Addr, nat))
    requires WritesOnly(q)
    ensures var w := Marked(size, Addrs(q), x);
            QueueOk(w.mem, q) && QueueOk(w.mem, NarrowQueue(q))
  {
    var w := Marked(size, Addrs(q), x);
    forall i | 0 <= i < |q| ensures RequestOk(w.mem, q[i]) {
      MarkedOk(w, q[i].bios);
    }
    NarrowOk(w.mem, q);
  }

  ghost predicate ModesAgree(size: nat, q: seq<Request>) {
    forall w: World :: |w.disk| == size && QueueOk(w.mem, q) && QueueOk(w.mem, NarrowQueue(q)) ==>
      RunQueueFull(w, q) == RunQueue(w, NarrowQueue(q))
  }

  lemma NarrowWritesOnly(q: seq<Request>)
    requires WritesOnly(q)
    ensures WritesOnly(NarrowQueue(q))
  {
  }

  /** What both modes make of a queue of writes. */
  lemma ModesFlat(w: World, q: seq<Request>)
    requires QueueOk(w.mem, q) && QueueOk(w.mem, NarrowQueue(q)) && WritesOnly(q)
    ensures BiosOk(w.mem, Flat(q)) && RunQueueFull(w, q) == RunBios(w, Flat(q), true)
    ensures BiosOk(w.mem, NarrowBios(Flat(q)))
    ensures RunQueue(w, NarrowQueue(q)) == RunBios(w, NarrowBios(Flat(q)), true)
  {
    FullQueueIsOnce(w, q);
    RunFlat(w, q);
    NarrowWritesOnly(q);
    RunFlat(w, NarrowQueue(q));
    FlatNarrow(q);
  }

  /**
   On a queue of writes the modes agree for all data exactly when, with the sector numbers in 32
   bits or in full, every byte of the device is written last from the same place, if at all.
   */
  lemma WriteQueuesAgreeIff(size: nat, q: seq<Request>)
    requires WritesOnly(q)
    ensures ModesAgree(size, q) <==> SameWriters(size, Flat(q), NarrowBios(Flat(q)))
  {
    var bios, cios := Flat(q), NarrowBios(Flat(q));
    if SameWriters(size, bios, cios) {
      forall w: World | |w.disk| == size && QueueOk(w.mem, q) && QueueOk(w.mem, NarrowQueue(q))
        ensures RunQueueFull(w, q) == RunQueue(w, NarrowQueue(q))
      {
        ModesFlat(w, q);
        SameWritersRun(w, bios, cios);
      }
    } else {
      var p :| 0 <= p < size && Writer(size, bios, p) != Writer(size, cios, p);
      WritersTell(size, q, p);
    }
  }

  lemma WritersTell(size: nat, q: seq<Request>, p: nat)
    requires WritesOnly(q) && p < size
    requires Writer(size, Flat(q), p) != Writer(size, NarrowBios(Flat(q)), p)
    ensures !ModesAgree(size, q)
  {
    var bios, cios := Flat(q), NarrowBios(Flat(q));
    var x := if Writer(size, bios, p).Some? then Writer(size, bios, p).value else Writer(size, cios, p).value;
    var w := Marked(size, Addrs(q), x);
    MarkedQueueOk(q, size, x);
    ModesFlat(w, q);
    if Writer(size, bios, p).Some? {
      MarkTells(size, Addrs(q), bios, cios, p);
    } else {
      MarkTells(size, Addrs(q), cios, bios, p);
    }
  }

  // ------------------------------------------------------------------ concrete queues

  /** A write of one sector from a buffer of ones. */
  function OneWrite(sector: SectorNo): seq<Request> {
    [Request(true, true, [Bio(sector, 1, 0)])]
  }

  /** A device of one sector of zeros. */
  function OneSector(): World {
    World(Filled(SECTOR, 0), map[0 := Filled(SECTOR, 1)])
  }

  lemma OneWriteIs(w: World, sector: SectorNo)
    requires 0 in w.mem && |w.mem[0]| >= SECTOR
    ensures QueueOk(w.mem, OneWrite(sector)) && NarrowQueue(OneWrite(sector)) == OneWrite(U32(sector))
    ensures RunQueue(w, OneWrite(sector)) == Apply(w, Bio(sector, 1, 0), true)
    ensures SimpleStatuses(|w.disk|, OneWrite(sector)) == [Status(|w.disk|, Bio(sector, 1, 0))]
    ensures FullStatuses(OneWrite(sector)) == [0]
  {
    var q, bios := OneWrite(sector), [Bio(sector, 1, 0)];
    assert BioOk(w.mem, bios[0]) && RequestOk(w.mem, q[0]);
    assert NarrowBios(bios) == [Bio(U32(sector), 1, 0)];
    assert bios[1..] == [] && q[1..] == [];
    var r := Apply(w, bios[0], true);
    assert RunBios(w, bios, true) == RunBios(r, [], true) == r;
    assert RunQueue(w, q) == RunQueue(r, []) == r;
    assert EndCur(q) == [];
  }

  /** full_request reports success for a write beyond the device that it has skipped. */
  lemma BeyondEndReportsSuccess()
    ensures var w, q := OneSector(), OneWrite(1);
            && QueueOk(w.mem, q) && RunQueueFull(w, q) == w
            && FullStatuses(q) == [0] && SimpleStatuses(SECTOR, NarrowQueue(q)) == [-EIO]
  {
    OneWriteIs(OneSector(), 1);
    FullQueueIsOnce(OneSector(), OneWrite(1));
  }

  /** simple_request carries out a write to sector 2^32 on sector 0; full_request skips it; both report success. */
  lemma WideSectorDiffers()
    ensures var w, q := OneSector(), OneWrite(TWO_32);
            && QueueOk(w.mem, q) && QueueOk(w.mem, NarrowQueue(q))
            && RunQueueFull(w, q) == w && RunQueue(w, NarrowQueue(q)).disk[0] == 1
            && FullStatuses(q) == SimpleStatuses(SECTOR, NarrowQueue(q)) == [0]
  {
    OneWriteIs(OneSector(), TWO_32);
    OneWriteIs(OneSector(), 0);
    FullQueueIsOnce(OneSector(), OneWrite(TWO_32));
  }

  /**
   For a queue harmlessness is not necessary: here a later write hides the misplaced one, and the
   modes agree on every device.
   */
  lemma MaskedPiece(w: World)
    requires SECTOR <= |w.disk| < TWO_31 && 0 in w.mem && |w.mem[0]| >= SECTOR
    ensures var q := OneWrite(TWO_32) + OneWrite(0);
            && !HarmlessQueue(|w.disk|, q) && QueueOk(w.mem, q) && QueueOk(w.mem, NarrowQueue(q))
            && RunQueueFull(w, q) == RunQueue(w, NarrowQueue(q))
  {
    var q, wide, low := OneWrite(TWO_32) + OneWrite(0), Bio(TWO_32, 1, 0), Bio(0, 1, 0);
    assert q[0].fs && q[0].bios[0] == wide && !Harmless(|w.disk|, wide) && !HarmlessBios(|w.disk|, q[0].bios);
    OneWriteIs(w, TWO_32);
    OneWriteIs(w, 0);
    NarrowQueueTail(q);
    assert NarrowQueue(q) == OneWrite(0) + OneWrite(0);
    TwoWrites(w, TWO_32, 0);
    TwoWrites(w, 0, 0);
    ApplyTwice(w, low);
    FullQueueIsOnce(w, q);
  }

  lemma TwoWrites(w: World, first: SectorNo, second: SectorNo)
    requires 0 in w.mem && |w.mem[0]| >= SECTOR
    ensures var q := OneWrite(first) + OneWrite(second);
            QueueOk(w.mem, q) && RunQueue(w, q) == Apply(Apply(w, Bio(first, 1, 0), true), Bio(second, 1, 0), true)
  {
    var q := OneWrite(first) + OneWrite(second);
    OneWriteIs(w, first);
    var r := RunBios(w, q[0].bios, true);
    assert RunQueue(w, OneWrite(first)) == RunQueue(r, OneWrite(first)[1..]) == r;
    OneWriteIs(r, second);
    assert q[1..] == OneWrite(second);
  }

  lemma ApplyTwice(w: World, b: Bio)
    requires BioOk(w.mem, b)
    ensures Apply(Apply(w, b, true), b, true) == Apply(w, b, true)
  {
    assert Apply(Apply(w, b, true), b, true).disk == Apply(w, b, true).disk;
  }

  // ------------------------------------------------------------------ how much is copied

  /** Calls of transfer() made by full_request for a request of n bios. */
  function FullTransfers(n: nat): nat {
    if n == 0 then 0 else n + FullTransfers(n - 1)
  }

  lemma {:induction false} FullTransfersClosed(n: nat)
    ensures FullTransfers(n) == n * (n + 1) / 2
  {
    if n > 0 {
      FullTransfersClosed(n - 1);
      assert n * (n + 1) == (n - 1) * n + 2 * n;
    }
  }

  function QueueTransfers(q: seq<Request>, full: bool): nat {
    if q == [] then 0
    else
      var n := |q[0].bios|;
      (if !q[0].fs then 0 else if full then FullTransfers(n) else n) + QueueTransfers(q[1..], full)
  }

  lemma {:induction false} TransfersNarrow(q: seq<Request>, full: bool)
    ensures QueueTransfers(NarrowQueue(q), full) == QueueTransfers(q, full)
  {
    if q != [] {
      NarrowQueueTail(q);
      TransfersNarrow(q[1..], full);
    }
  }

  // ------------------------------------------------------------------ the request functions

  function SectorCount(bios: seq<Bio>): nat {
    if bios == [] then 0 else bios[0].nsect + SectorCount(bios[1..])
  }

  /** `transfers` counts the calls of transfer(). */
  class Device {
    const data: array<Byte>
    var mem: map<Addr, seq<Byte>>
    ghost var transfers: nat

    constructor (size: nat, mem: map<Addr, seq<Byte>>)
      ensures fresh(data) && data.Length == size && this.mem == mem && transfers == 0
    {
      data := new Byte[size](_ => 0);
      this.mem := mem;
      transfers := 0;
    }

    ghost function Abs(): World
      reads this, data
    {
      World(data[..], mem)
    }

    method Transfer(sector: SectorNo, nsect: Count, buffer: Addr, write: bool) returns (status: int)
      requires BioOk(mem, Bio(sector, nsect, buffer))
      modifies this`mem, this`transfers, data
      ensures Abs() == Apply(old(Abs()), Bio(sector, nsect, buffer), write)
      ensures status == Status(data.Length, Bio(sector, nsect, buffer))
      ensures transfers == old(transfers) + 1
    {
      transfers := transfers + 1;
      var offset, nbytes := sector * SECTOR, nsect * SECTOR;
      if offset + nbytes > data.Length { return -EIO; }
      if write {
        var src := mem[buffer];
        forall i | 0 <= i < nbytes { data[offset + i] := src[i]; }
        assert data[..] == Splice(old(data[..]), offset, src[..nbytes]);
      } else {
        mem := mem[buffer := Splice(mem[buffer], 0, data[offset..offset + nbytes])];
        assert data[..][offset..offset + nbytes] == data[offset..offset + nbytes];
      }
      return 0;
    }

    /** A bio with its one segment. */
    method XferBio(bio: Bio, write: bool) returns (status: int)
      requires BioOk(mem, bio)
      modifies this`mem, this`transfers, data
      ensures Abs() == Apply(old(Abs()), bio, write)
      ensures status == Status(data.Length, bio)
      ensures transfers == old(transfers) + 1
    {
      status := Transfer(bio.sector, bio.nsect, bio.buf, write);
    }

    /** The result counts the sectors of all bios, those of refused ones included. */
    method XferRequest(req: Request) returns (nsect: nat)
      requires BiosOk(mem, req.bios)
      modifies this`mem, this`transfers, data
      ensures Abs() == RunBios(old(Abs()), req.bios, req.write)
      ensures transfers == old(transfers) + |req.bios|
      ensures nsect == SectorCount(req.bios)
    {
      nsect := 0;
      var i := 0;
      while i < |req.bios|
        invariant 0 <= i <= |req.bios|
        invariant SameShape(old(Abs()), Abs())
        invariant RunBios(Abs(), req.bios[i..], req.write) == RunBios(old(Abs()), req.bios, req.write)
        invariant transfers == old(transfers) + i
        invariant nsect + SectorCount(req.bios[i..]) == SectorCount(req.bios)
      {
        assert req.bios[i..][1..] == req.bios[i + 1..];
        var _ := XferBio(req.bios[i], req.write);
        nsect := nsect + req.bios[i].nsect;
        i := i + 1;
      }
    }

    /** The direct mode: a bio is carried out without a queue, and its own status is reported. */
    method MakeRequest(bio: Bio, write: bool) returns (status: int)
      requires BioOk(mem, bio)
      modifies this`mem, this`transfers, data
      ensures Abs() == Apply(old(Abs()), bio, write)
      ensures status == Status(data.Length, bio)
      ensures transfers == old(transfers) + 1
    {
      status := XferBio(bio, write);
    }

    /** The head of `rest` is the fetched request with its bios not completed yet. */
    method SimpleRequest(q: seq<Request>) returns (statuses: seq<int>)
      requires QueueOk(mem, q)
      modifies this`mem, this`transfers, data
      ensures QueueOk(old(mem), NarrowQueue(q)) && Abs() == RunQueue(old(Abs()), NarrowQueue(q))
      ensures statuses == SimpleStatuses(data.Length, NarrowQueue(q))
      ensures transfers == old(transfers) + QueueTransfers(q, false)
    {
      var rest := q;
      ghost var nq := NarrowQueue(q);
      NarrowOk(mem, q);
      statuses := [];
      while rest != []
        invariant SameShape(old(Abs()), Abs()) && QueueOk(mem, rest) && QueueOk(mem, NarrowQueue(rest))
        invariant RunQueue(Abs(), NarrowQueue(rest)) == RunQueue(old(Abs()), nq)
        invariant statuses + SimpleStatuses(data.Length, NarrowQueue(rest)) == SimpleStatuses(data.Length, nq)
        invariant transfers + QueueTransfers(rest, false) == old(transfers) + QueueTransfers(q, false)
        decreases |rest|, if rest == [] then 0 else |rest[0].bios|
      {
        if !rest[0].fs {
          NarrowQueueTail(rest);
          Shift(statuses, -EIO, SimpleStatuses(data.Length, NarrowQueue(rest[1..])));
          statuses := statuses + [-EIO];
          rest := rest[1..];
        } else {
          var status := SimpleOne(rest);
          Shift(statuses, status, SimpleStatuses(data.Length, NarrowQueue(EndCur(rest))));
          statuses := statuses + [status];
          rest := EndCur(rest);
        }
      }
    }

    /** The valid branch of simple_request's loop, up to the completion. */
    method SimpleOne(q: seq<Request>) returns (status: int)
      requires QueueOk(mem, q) && QueueOk(mem, NarrowQueue(q)) && q != [] && q[0].fs
      modifies this`mem, this`transfers, data
      ensures SameShape(old(Abs()), Abs())
      ensures QueueOk(mem, EndCur(q)) && QueueOk(mem, NarrowQueue(EndCur(q)))
      ensures RunQueue(Abs(), NarrowQueue(EndCur(q))) == RunQueue(old(Abs()), NarrowQueue(q))
      ensures SimpleStatuses(data.Length, NarrowQueue(q))
              == [status] + SimpleStatuses(data.Length, NarrowQueue(EndCur(q)))
      ensures transfers + QueueTransfers(EndCur(q), false) == old(transfers) + QueueTransfers(q, false)
    {
      SimpleStep(Abs(), NarrowQueue(q));
      NarrowEndCur(q);
      TransfersStep(q);
      EndCurOk(mem, q);
      var sector, nrSectors := U32(q[0].bios[0].sector), q[0].bios[0].nsect;
      status := Transfer(sector, nrSectors, q[0].bios[0].buf, q[0].write);
    }

    method FullRequest(q: seq<Request>) returns (statuses: seq<int>)
      requires QueueOk(mem, q)
      modifies this`mem, this`transfers, data
      ensures Abs() == RunQueue(old(Abs()), q)
      ensures statuses == FullStatuses(q)
      ensures transfers == old(transfers) + QueueTransfers(q, true)
    {
      FullQueueIsOnce(Abs(), q);
      statuses := FullLoop(q);
    }

    method FullLoop(q: seq<Request>) returns (statuses: seq<int>)
      requires QueueOk(mem, q)
      modifies this`mem, this`transfers, data
      ensures Abs() == RunQueueFull(old(Abs()), q)
      ensures statuses == FullStatuses(q)
      ensures transfers == old(transfers) + QueueTransfers(q, true)
    {
      var rest := q;
      statuses := [];
      while rest != []
        invariant SameShape(old(Abs()), Abs()) && QueueOk(mem, rest)
        invariant RunQueueFull(Abs(), rest) == RunQueueFull(old(Abs()), q)
        invariant statuses + FullStatuses(rest) == FullStatuses(q)
        invariant transfers + QueueTransfers(rest, true) == old(transfers) + QueueTransfers(q, true)
        decreases |rest|, if rest == [] then 0 else |rest[0].bios|
      {
        if !rest[0].fs {
          Shift(statuses, -EIO, FullStatuses(rest[1..]));
          statuses := statuses + [-EIO];
          rest := rest[1..];
        } else {
          FullOne(rest);
          Shift(statuses, 0, FullStatuses(EndCur(rest)));
          statuses := statuses + [0];
          rest := EndCur(rest);
        }
      }
    }

    /** The valid branch of full_request's loop, up to the completion. */
    method FullOne(q: seq<Request>)
      requires QueueOk(mem, q) && q != [] && q[0].fs
      modifies this`mem, this`transfers, data
      ensures SameShape(old(Abs()), Abs())
      ensures QueueOk(mem, EndCur(q)) && RunQueueFull(Abs(), EndCur(q)) == RunQueueFull(old(Abs()), q)
      ensures FullStatuses(q) == [0] + FullStatuses(EndCur(q))
      ensures transfers + QueueTransfers(EndCur(q), true) == old(transfers) + QueueTransfers(q, true)
    {
      FullStep(Abs(), q);
      TransfersStep(q);
      var _ := XferRequest(q[0]);
    }
  }

  /** One completion of simple_request, seen from the rest of the queue. */
  lemma SimpleStep(w: World, q: seq<Request>)
    requires QueueOk(w.mem, q) && q != [] && q[0].fs
    ensures BioOk(w.mem, q[0].bios[0])
    ensures var r := Apply(w, q[0].bios[0], q[0].write);
            QueueOk(r.mem, EndCur(q)) && RunQueue(r, EndCur(q)) == RunQueue(w, q)
  {
    assert RequestOk(w.mem, q[0]);
    var bios, write := q[0].bios, q[0].write;
    assert BioOk(w.mem, bios[0]);
    var r := Apply(w, bios[0], write);
    EndCurOk(w.mem, q);
    assert RunBios(w, bios, write) == RunBios(r, bios[1..], write);
    if |bios| == 1 {
      assert bios[1..] == [];
    }
  }

  /** One completion of full_request, seen from the rest of the queue. */
  lemma FullStep(w: World, q: seq<Request>)
    requires QueueOk(w.mem, q) && q != [] && q[0].fs
    ensures BiosOk(w.mem, q[0].bios)
    ensures var r := RunBios(w, q[0].bios, q[0].write);
            QueueOk(r.mem, EndCur(q)) && RunQueueFull(r, EndCur(q)) == RunQueueFull(w, q)
  {
    assert RequestOk(w.mem, q[0]);
    var bios, write := q[0].bios, q[0].write;
    var r := RunBios(w, bios, write);
    EndCurOk(w.mem, q);
    assert RunFull(w, bios, write) == RunFull(r, bios[1..], write);
    if |bios| == 1 {
      assert bios[1..] == [];
    }
  }

  lemma TransfersStep(q: seq<Request>)
    requires q != [] && q[0].fs && q[0].bios != []
    ensures QueueTransfers(q, false) == 1 + QueueTransfers(EndCur(q), false)
    ensures QueueTransfers(q, true) == |q[0].bios| + QueueTransfers(EndCur(q), true)
  {
    if |q[0].bios| == 1 { assert FullTransfers(1) == 1 + FullTransfers(0); }
  }

  lemma EndCurOk(mem: map<Addr, seq<Byte>>, q: seq<Request>)
    requires QueueOk(mem, q) && q != [] && q[0].fs
    ensures QueueOk(mem, EndCur(q))
  {
    assert RequestOk(mem, q[0]);
    forall i | 0 <= i < |EndCur(q)| ensures RequestOk(mem, EndCur(q)[i]) {
      assert |EndCur(q)| == |q| && i > 0 ==> EndCur(q)[i] == q[i];
      assert |EndCur(q)| != |q| ==> EndCur(q)[i] == q[i + 1];
    }
  }
}
