/**
 The disk image of Tasks/blkdev/dubfl/dubfl.c: a RAM copy of a file, read and written by requests
 in whole sectors, that can be loaded, saved and unlinked while the device exists.

 Files are byte sequences by name; every file transfer moves a full sector. `alloc` tells whether
 vmalloc finds room; for 0 bytes it never succeeds. The 32-bit width of the sector count is explicit.
 */
module DubflModel {
  import opened Common

  const SECTOR: nat := 512
  const MAX_PATH: nat := 160
  const ENOENT: int := 2
  const ENOMEM: int := 12
  const EIO: int := 5
  const EFAULT: int := 14

  /** Sector numbers whose byte offsets fit into 64 bits. */
  type SectorNo = s: int | 0 <= s < TWO_63 / 512

  type Files = map<string, seq<Byte>>

  /** struct own_disk; `data` and `file` are None where the source has null pointers. */
  datatype Disk = Disk(fname: string, ssize: nat, bsize: nat, data: Option<seq<Byte>>, file: Option<string>)

  /** A request of one segment; `fs` is blk_fs_request. */
  datatype Request = Request(fs: bool, write: bool, sector: SectorNo, nsect: SectorNo, buffer: seq<Byte>)

  /** The completion of a request: its status and the bytes in its buffer. */
  datatype Reply = Reply(status: int, buffer: seq<Byte>)

  datatype Command = GetInfo | SaveDisk | UnlinkDisk | LoadDisk(path: string, alloc: bool)

  const NO_DISK: Disk := Disk("", 0, 0, None, None)

  /** The sector count of a file, an unsigned int. */
  function Sectors(len: nat): nat {
    U32(len / SECTOR)
  }

  /** The byte count of that many sectors, computed in unsigned int. */
  function Size(ssize: nat): nat {
    U32(ssize * SECTOR)
  }

  function Truncated(name: string): string {
    name[..Min(|name|, MAX_PATH)]
  }

  lemma SizeFits(len: nat)
    ensures Size(Sectors(len)) <= len && Size(Sectors(len)) % SECTOR == 0
  {
    var s := Sectors(len);
    assert s <= len / SECTOR;
    assert s * SECTOR == (s * SECTOR / TWO_32) * TWO_32 + Size(s);
  }

  /** load_file: the new state and the return code. A missing file leaves all but the name alone. */
  function Load(d: Disk, fs: Files, name: string, alloc: bool): (Disk, int) {
    var path := Truncated(name);
    if name == "" || path !in fs then (d.(fname := path), -ENOENT)
    else
      var len := |fs[path]|;
      var bsize := Size(Sectors(len));
      SizeFits(len);
      if bsize == 0 || !alloc then (NO_DISK, -ENOMEM)
      else (Disk(path, Sectors(len), bsize, Some(fs[path][..bsize]), Some(path)), 0)
  }

  predicate CanSave(d: Disk, fs: Files) {
    d.data.Some? && d.file.Some? && d.file.value in fs && |d.data.value| == d.bsize && d.bsize % SECTOR == 0
  }

  /** Writing bytes into a file at an offset, growing it where needed. */
  function Overwrite(s: seq<Byte>, off: nat, bytes: seq<Byte>): seq<Byte>
    requires off <= |s|
  {
    s[..off] + bytes + if off + |bytes| < |s| then s[off + |bytes|..] else []
  }

  /** save_file writes the image over the front of its file. */
  function Save(d: Disk, fs: Files): Files
    requires CanSave(d, fs)
  {
    fs[d.file.value := Overwrite(fs[d.file.value], 0, d.data.value)]
  }

  predicate Accepted(d: Disk, r: Request) {
    r.fs && r.sector + r.nsect <= d.ssize
  }

  predicate Sized(r: Request) {
    |r.buffer| == r.nsect * SECTOR
  }

  /** The bytes that a request touches lie inside the image. */
  predicate Inside(d: Disk, r: Request) {
    r.nsect == 0 || (d.data.Some? && (r.sector + r.nsect) * SECTOR <= |d.data.value|)
  }

  /** my_request for one request. */
  function Serve(d: Disk, r: Request): (Disk, Reply)
    requires Sized(r) && (Accepted(d, r) ==> Inside(d, r))
  {
    if !Accepted(d, r) then (d, Reply(-EIO, r.buffer))
    else if r.nsect == 0 then (d, Reply(0, r.buffer))
    else
      var off, n, data := r.sector * SECTOR, r.nsect * SECTOR, d.data.value;
      if r.write then (d.(data := Some(data[..off] + r.buffer + data[off + n..])), Reply(0, r.buffer))
      else (d, Reply(0, data[off..off + n]))
  }

  // ------------------------------------------------------------------ the invariant

  predicate DiskOk(d: Disk) {
    && (d.data.Some? <==> d.file.Some?)
    && (d.data.None? ==> d.ssize == d.bsize == 0)
    && (d.data.Some? ==> |d.data.value| == d.bsize == SECTOR * d.ssize)
  }

  /** Sector counts whose byte count fits an unsigned int: below 4 GiB. */
  const EXACT_SECTORS: nat := 0x80_0000

  /** The disk is well formed, below 4 GiB, and has as many sectors as load_file counts in its file. */
  predicate Sound(d: Disk, fs: Files) {
    && DiskOk(d) && d.ssize < EXACT_SECTORS
    && (d.file.Some? ==> d.file.value in fs && d.ssize == Sectors(|fs[d.file.value]|))
  }

  /** When a load succeeds: the file is there, has a sector that the 32-bit size can count, and memory is found. */
  predicate Loads(fs: Files, name: string, alloc: bool) {
    name != "" && Truncated(name) in fs && Size(Sectors(|fs[Truncated(name)]|)) > 0 && alloc
  }

  /** A command may load a file only if its sector count, as an unsigned int, is below that of 4 GiB. */
  predicate LoadsExact(fs: Files, c: Command) {
    c.LoadDisk? && Loads(fs, c.path, c.alloc) ==> Sectors(|fs[Truncated(c.path)]|) < EXACT_SECTORS
  }

  /** The byte count is 512 times the sector count exactly then, for a file of any length. */
  lemma SizeExactIff(len: nat)
    ensures Size(Sectors(len)) == SECTOR * Sectors(len) <==> Sectors(len) < EXACT_SECTORS
  {
  }

  /** After a successful load every accepted request stays inside the image exactly then. */
  lemma LoadedInsideIff(d: Disk, fs: Files, name: string)
    requires Load(d, fs, name, true).1 == 0
    ensures var e := Load(d, fs, name, true).0;
            (forall r: Request :: Accepted(e, r) ==> Inside(e, r))
            <==> Sectors(|fs[Truncated(name)]|) < EXACT_SECTORS
  {
    var e := Load(d, fs, name, true).0;
    var len := |fs[Truncated(name)]|;
    SizeExactIff(len);
    SizeFits(len);
    assert Size(e.ssize) <= e.ssize * SECTOR;
    var last := Request(true, false, e.ssize - 1, 1, []);
    assert Accepted(e, last);
    assert Inside(e, last) <==> e.bsize == SECTOR * e.ssize;
    if e.bsize == SECTOR * e.ssize {
      forall r: Request | Accepted(e, r) ensures Inside(e, r) {}
    }
  }

  /** A file of 4 GiB and one sector is loaded as an image of one sector, which accepts a request for its second. */
  lemma BeyondFourGigabytes(fs: Files, path: string)
    requires path in fs && |fs[path]| == TWO_32 + SECTOR && 0 < |path| <= MAX_PATH
    ensures var (d, code) := Load(NO_DISK, fs, path, true);
            var r := Request(true, false, 1, 1, Zeros(SECTOR));
            code == 0 && d.bsize == SECTOR && Sized(r) && Accepted(d, r) && !Inside(d, r)
  {
    assert Truncated(path) == path;
    assert Sectors(TWO_32 + SECTOR) == EXACT_SECTORS + 1;
    assert Size(EXACT_SECTORS + 1) == SECTOR;
  }

  function Zeros(n: nat): (s: seq<Byte>)
    ensures |s| == n
  {
    seq(n, _ => 0)
  }

  lemma LoadIsSound(d: Disk, fs: Files, name: string)
    requires Loads(fs, name, true) && Sectors(|fs[Truncated(name)]|) < EXACT_SECTORS
    ensures Load(d, fs, name, true).1 == 0 && Sound(Load(d, fs, name, true).0, fs)
  {
    var len := |fs[Truncated(name)]|;
    SizeExactIff(len);
    SizeFits(len);
  }

  /** On a sound disk no accepted request leaves the image, and requests keep it sound and equally large. */
  lemma ServeKeepsOk(d: Disk, r: Request)
    requires DiskOk(d) && Sized(r)
    ensures Accepted(d, r) ==> Inside(d, r)
    ensures SameSize(d, Serve(d, r).0)
  {
  }

  predicate SameSize(d: Disk, e: Disk) {
    DiskOk(e) && e.ssize == d.ssize && e.bsize == d.bsize && e.file == d.file && e.fname == d.fname
  }

  /**
   A file system request for sectors that the disk has is carried out on the bytes of exactly these
   sectors; any other request gets -EIO and changes nothing.
   */
  lemma ServeMeans(d: Disk, r: Request)
    requires DiskOk(d) && Sized(r)
    ensures var (e, reply) := Serve(d, r);
            && (reply.status == 0 <==> r.fs && forall x: int :: 0 <= x < r.sector + r.nsect ==> HasSector(d, x))
            && (reply.status != 0 ==> reply == Reply(-5, r.buffer) && e == d)
            && (reply.status == 0 && r.nsect > 0 ==>
                  d.data.Some? && e.data.Some? && |e.data.value| == |d.data.value| &&
                  var lo, hi := 512 * r.sector, 512 * (r.sector + r.nsect);
                  && 0 <= lo <= hi <= |d.data.value|
                  && reply.buffer == e.data.value[lo..hi]
                  && (if r.write then reply.buffer == r.buffer else e == d)
                  && e.data.value[..lo] == d.data.value[..lo] && e.data.value[hi..] == d.data.value[hi..])
  {
    ServeKeepsOk(d, r);
    if r.sector + r.nsect > d.ssize {
      assert !HasSector(d, r.sector + r.nsect - 1);
    }
  }

  predicate HasSector(d: Disk, x: int) {
    0 <= x < d.ssize
  }

  /** A read of the sectors just written returns the bytes written, a read of other sectors what it did before. */
  lemma ReadAfterWrite(d: Disk, w: Request, r: Request)
    requires DiskOk(d) && Sized(w) && Sized(r) && w.write && !r.write && Accepted(d, w)
    ensures SameSize(d, Serve(d, w).0)
    ensures r.fs && r.sector == w.sector && r.nsect == w.nsect ==>
              Serve(Serve(d, w).0, r).1 == Reply(0, w.buffer)
    ensures r.sector + r.nsect <= w.sector || w.sector + w.nsect <= r.sector ==>
              Serve(Serve(d, w).0, r).1 == Serve(d, r).1
  {
    ServeKeepsOk(d, w);
    if w.nsect > 0 {
      var data, off, n := d.data.value, w.sector * SECTOR, w.nsect * SECTOR;
      var after := data[..off] + w.buffer + data[off + n..];
      assert after[off..off + n] == w.buffer;
      if r.nsect > 0 && Accepted(d, r) {
        ServeKeepsOk(d, r);
        var at, m := r.sector * SECTOR, r.nsect * SECTOR;
        if at + m <= off {
          assert after[at..at + m] == data[at..at + m];
        } else if off + n <= at {
          assert after[at..at + m] == data[at..at + m];
        }
      }
    } else if r.nsect == 0 && w.nsect == 0 {
      assert r.buffer == w.buffer;
    }
  }

  // ------------------------------------------------------------------ whole runs

  function ServeAll(d: Disk, rs: seq<Request>): Disk
    requires DiskOk(d) && forall r :: r in rs ==> Sized(r)
    decreases |rs|
  {
    if rs == [] then d
    else
      ServeKeepsOk(d, rs[0]);
      ServeAll(Serve(d, rs[0]).0, rs[1..])
  }

  function Replies(d: Disk, rs: seq<Request>): seq<Reply>
    requires DiskOk(d) && forall r :: r in rs ==> Sized(r)
    decreases |rs|
  {
    if rs == [] then []
    else
      ServeKeepsOk(d, rs[0]);
      [Serve(d, rs[0]).1] + Replies(Serve(d, rs[0]).0, rs[1..])
  }

  lemma {:induction false} ServeAllKeepsOk(d: Disk, rs: seq<Request>)
    requires DiskOk(d) && forall r :: r in rs ==> Sized(r)
    ensures SameSize(d, ServeAll(d, rs))
    decreases |rs|
  {
    if rs != [] {
      ServeKeepsOk(d, rs[0]);
      ServeAllKeepsOk(Serve(d, rs[0]).0, rs[1..]);
    }
  }

  /** Each request is served on the disk that those before it have left. */
  lemma {:induction false} ServedInOrder(d: Disk, rs: seq<Request>, i: nat)
    requires DiskOk(d) && i < |rs| && forall r :: r in rs ==> Sized(r)
    ensures var e := ServeAll(d, rs[..i]);
            && DiskOk(e) && |Replies(d, rs)| == |rs|
            && Replies(d, rs)[i] == Serve(e, rs[i]).1 && ServeAll(d, rs[..i + 1]) == Serve(e, rs[i]).0
    decreases |rs|
  {
    ServeKeepsOk(d, rs[0]);
    ServeAllKeepsOk(d, rs[..i]);
    var e := Serve(d, rs[0]).0;
    if i == 0 {
      RepliesLength(e, rs[1..]);
      assert rs[..1] == [rs[0]] && rs[..1][1..] == [] && rs[..0] == [];
    } else {
      ServedInOrder(e, rs[1..], i - 1);
      assert rs[..i][1..] == rs[1..][..i - 1] && rs[..i + 1][1..] == rs[1..][..i];
    }
  }

  lemma {:induction false} RepliesLength(d: Disk, rs: seq<Request>)
    requires DiskOk(d) && forall r :: r in rs ==> Sized(r)
    ensures |Replies(d, rs)| == |rs|
    decreases |rs|
  {
    if rs != [] {
      ServeKeepsOk(d, rs[0]);
      RepliesLength(Serve(d, rs[0]).0, rs[1..]);
    }
  }

  /** new_ioctl: the disk, the files and the return code. The result of load_file is thrown away. */
  function Ioctl(d: Disk, fs: Files, c: Command): (Disk, Files, int)
    requires d.file.Some? && d.data.Some? ==> CanSave(d, fs)
  {
    match c
    case GetInfo => (d, fs, 0)
    case SaveDisk => if d.file.None? || d.data.None? then (d, fs, -EFAULT) else (d, Save(d, fs), 0)
    case UnlinkDisk => (NO_DISK, fs, 0)
    case LoadDisk(path, alloc) => (Load(d, fs, path, alloc).0, fs, 0)
  }

  /**
   DUBFL_LOAD_DISK always reports success. The file is loaded exactly if it is there, has a sector,
   and memory is found; without the file nothing but the name changes, otherwise the old image is lost.
   */
  lemma LoadDiskReports(d: Disk, fs: Files, path: string, alloc: bool)
    requires d.file.Some? && d.data.Some? ==> CanSave(d, fs)
    ensures var (e, gs, code) := Ioctl(d, fs, LoadDisk(path, alloc));
            && code == 0 && gs == fs
            && (Load(d, fs, path, alloc).1 == code <==> Loads(fs, path, alloc))
            && (if path == "" || Truncated(path) !in fs then e == d.(fname := Truncated(path))
                else if !Loads(fs, path, alloc) then e == NO_DISK
                else e.file == Some(Truncated(path)) && e.data.Some? && 0 < |e.data.value| <= |fs[Truncated(path)]|
                     && e.data.value == fs[Truncated(path)][..|e.data.value|])
  {
    if Truncated(path) in fs {
      SizeFits(|fs[Truncated(path)]|);
    }
  }

  /** Loading a file that is not there reports success, and so does a load without memory, which drops the image. */
  lemma FailedLoadReportsSuccess(d: Disk)
    requires Sound(d, map["disk" := Zeros(SECTOR)])
    ensures Ioctl(NO_DISK, map[], LoadDisk("disk", true)) == (NO_DISK.(fname := "disk"), map[], 0)
    ensures Load(NO_DISK, map[], "disk", true).1 == -ENOENT
    ensures Ioctl(d, map["disk" := Zeros(SECTOR)], LoadDisk("disk", false)).0 == NO_DISK
    ensures Ioctl(d, map["disk" := Zeros(SECTOR)], LoadDisk("disk", false)).2 == 0
  {
    assert Truncated("disk") == "disk";
  }

  /** DUBFL_SAVE_DISK puts the image in front of what the file has behind it; without an image it is refused. */
  lemma SaveMeans(d: Disk, fs: Files)
    requires Sound(d, fs)
    ensures d.file.None? ==> Ioctl(d, fs, SaveDisk) == (d, fs, -14)
    ensures d.file.Some? ==>
              var (e, gs, code) := Ioctl(d, fs, SaveDisk);
              var path := d.file.value;
              && code == 0 && e == d && d.data.Some? && path in fs && gs.Keys == fs.Keys
              && |d.data.value| == 512 * d.ssize <= |fs[path]|
              && gs[path] == d.data.value + fs[path][|d.data.value|..]
              && forall other :: other in fs && other != path ==> gs[other] == fs[other]
  {
    if d.file.Some? {
      var f := fs[d.file.value];
      SizeFits(|f|);
      SizeExactIff(|f|);
    }
  }

  /** DUBFL_UNLINK_DISK leaves no file, no image and no size, and all files as they are. */
  lemma UnlinkMeans(d: Disk, fs: Files)
    requires d.file.Some? && d.data.Some? ==> CanSave(d, fs)
    ensures var (e, gs, code) := Ioctl(d, fs, UnlinkDisk);
            && code == 0 && gs == fs && e.fname == "" && e.file.None? && e.data.None? && e.ssize == e.bsize == 0
  {
  }

  /** What a file of 512 bytes or more, and less than 4 GiB, is loaded as, and the codes of a load that fails. */
  lemma LoadMeans(d: Disk, fs: Files, name: string, alloc: bool)
    requires |name| <= 160 && (name in fs ==> |fs[name]| < TWO_32)
    ensures var (e, code) := Load(d, fs, name, alloc);
            if name == "" || name !in fs then code == -2 && e == d.(fname := name)
            else if |fs[name]| < 512 || !alloc then
              code == -12 && e.file.None? && e.data.None? && e.ssize == e.bsize == 0
            else
              && code == 0 && e.fname == name && e.file == Some(name)
              && e.ssize == |fs[name]| / 512 && e.bsize == 512 * e.ssize && e.data == Some(fs[name][..e.bsize])
  {
    assert Truncated(name) == name;
    if name in fs {
      SizeExactIff(|fs[name]|);
      SizeFits(|fs[name]|);
    }
  }

  /** Only the first 160 characters of a name count. */
  lemma LongNames(d: Disk, fs: Files, name: string, alloc: bool)
    requires |name| > 160
    ensures Load(d, fs, name, alloc) == Load(d, fs, name[..160], alloc)
  {
    assert name[..160][..160] == name[..160];
  }

  datatype Op = Io(request: Request) | Control(command: Command)

  /** Requests carry buffers of their size, loads are of files below 4 GiB. */
  predicate OpOk(fs: Files, op: Op) {
    match op
    case Io(r) => Sized(r)
    case Control(c) => LoadsExact(fs, c)
  }

  function Step(d: Disk, fs: Files, op: Op): (Disk, Files)
    requires Sound(d, fs) && OpOk(fs, op)
  {
    match op
    case Io(r) =>
      ServeKeepsOk(d, r);
      (Serve(d, r).0, fs)
    case Control(c) => (Ioctl(d, fs, c).0, Ioctl(d, fs, c).1)
  }

  /** The same files, of the same lengths, with the same bytes behind those that an image holds. */
  predicate SameTails(fs: Files, gs: Files) {
    fs.Keys == gs.Keys &&
    forall name :: name in fs ==> |fs[name]| == |gs[name]| && Tail(fs[name]) == Tail(gs[name])
  }

  function Tail(s: seq<Byte>): seq<Byte> {
    SizeFits(|s|);
    s[Size(Sectors(|s|))..]
  }

  lemma StepKeepsSound(d: Disk, fs: Files, op: Op)
    requires Sound(d, fs) && OpOk(fs, op)
    ensures var (e, gs) := Step(d, fs, op);
            Sound(e, gs) && SameTails(fs, gs)
  {
    match op
    case Io(r) => ServeKeepsOk(d, r);
    case Control(c) =>
      match c {
        case GetInfo =>
        case UnlinkDisk =>
        case LoadDisk(path, alloc) =>
          LoadDiskReports(d, fs, path, alloc);
          if Loads(fs, path, alloc) { LoadIsSound(d, fs, path); }
        case SaveDisk =>
          if d.file.Some? { SaveKeepsTails(d, fs); }
      }
  }

  lemma SaveKeepsTails(d: Disk, fs: Files)
    requires Sound(d, fs) && d.file.Some?
    ensures CanSave(d, fs) && Sound(d, Save(d, fs)) && SameTails(fs, Save(d, fs))
  {
    var f, data := fs[d.file.value], d.data.value;
    var n := Size(Sectors(|f|));
    SizeFits(|f|);
    SizeExactIff(|f|);
    assert |data| == n <= |f|;
    var g := Overwrite(f, 0, data);
    assert |g| == |f|;
    assert g[n..] == f[n..];
  }

  predicate OpsOk(fs: Files, ops: seq<Op>) {
    forall i :: 0 <= i < |ops| ==> OpOk(fs, ops[i])
  }

  /** Which operations are all right depends on the lengths of the files only. */
  lemma OpsStayOk(fs: Files, gs: Files, ops: seq<Op>)
    requires OpsOk(fs, ops) && SameTails(fs, gs) && ops != []
    ensures OpsOk(gs, ops[1..])
  {
    forall i | 0 <= i < |ops| - 1 ensures OpOk(gs, ops[1..][i]) {
      assert OpOk(fs, ops[i + 1]);
    }
  }

  function Run(d: Disk, fs: Files, ops: seq<Op>): (Disk, Files)
    requires Sound(d, fs) && OpsOk(fs, ops)
    decreases |ops|
  {
    if ops == [] then (d, fs)
    else
      StepKeepsSound(d, fs, ops[0]);
      var (e, gs) := Step(d, fs, ops[0]);
      OpsStayOk(fs, gs, ops);
      Run(e, gs, ops[1..])
  }

  /** In every run the image keeps its exact size, and no operation resizes a file or touches its tail. */
  lemma {:induction false} RunKeepsSound(d: Disk, fs: Files, ops: seq<Op>)
    requires Sound(d, fs) && OpsOk(fs, ops)
    ensures var (e, gs) := Run(d, fs, ops);
            Sound(e, gs) && SameTails(fs, gs)
    decreases |ops|
  {
    if ops != [] {
      StepKeepsSound(d, fs, ops[0]);
      var (e, gs) := Step(d, fs, ops[0]);
      OpsStayOk(fs, gs, ops);
      RunKeepsSound(e, gs, ops[1..]);
    }
  }

  // ------------------------------------------------------------------ round trips

  /** Saving a freshly loaded image leaves every file as it was, whatever its size. */
  lemma LoadThenSave(d: Disk, fs: Files, name: string)
    requires Load(d, fs, name, true).1 == 0
    ensures CanSave(Load(d, fs, name, true).0, fs) && Save(Load(d, fs, name, true).0, fs) == fs
  {
    var f := fs[Truncated(name)];
    SizeFits(|f|);
    var n := Size(Sectors(|f|));
    assert Overwrite(f, 0, f[..n]) == f;
  }

  /**
   Load, any requests, save, unlink, load again: the image is what the requests left, the file
   keeps its length and its tail behind the last full sector, and no other file has changed.
   */
  lemma ImageSurvives(d: Disk, fs: Files, name: string, rs: seq<Request>)
    requires Load(d, fs, name, true).1 == 0 && Sectors(|fs[Truncated(name)]|) < EXACT_SECTORS
    requires forall r :: r in rs ==> Sized(r)
    ensures var first := Load(d, fs, name, true).0;
            DiskOk(first) &&
            var used := ServeAll(first, rs);
            CanSave(used, fs) &&
            var saved := Save(used, fs);
            && Load(NO_DISK, saved, name, true) == (used, 0)
            && SameTails(fs, saved)
            && forall other :: other in fs && other != Truncated(name) ==> saved[other] == fs[other]
  {
    LoadIsSound(d, fs, name);
    var first := Load(d, fs, name, true).0;
    ServeAllKeepsOk(first, rs);
    var used := ServeAll(first, rs);
    SaveKeepsTails(used, fs);
    var path := Truncated(name);
    var saved := Save(used, fs);
    assert saved[path][..used.bsize] == used.data.value;
    assert |saved[path]| == |fs[path]|;
  }

  // ------------------------------------------------------------------ the round trip by commands

  function Ios(rs: seq<Request>): seq<Op> {
    seq(|rs|, i requires 0 <= i < |rs| => Io(rs[i]))
  }

  lemma {:induction false} RunAppend(d: Disk, fs: Files, a: seq<Op>, b: seq<Op>)
    requires Sound(d, fs) && OpsOk(fs, a) && OpsOk(fs, b)
    ensures OpsOk(fs, a + b)
    ensures var (e, gs) := Run(d, fs, a);
            Sound(e, gs) && OpsOk(gs, b) && Run(d, fs, a + b) == Run(e, gs, b)
    decreases |a|
  {
    forall i | 0 <= i < |a + b| ensures OpOk(fs, (a + b)[i]) {
      assert i < |a| ==> OpOk(fs, a[i]);
    }
    if a == [] {
      assert a + b == b;
    } else {
      StepKeepsSound(d, fs, a[0]);
      var (e, gs) := Step(d, fs, a[0]);
      OpsStayOk(fs, gs, a);
      OpsStayOk(fs, gs, [a[0]] + b);
      assert ([a[0]] + b)[1..] == b && (a + b)[1..] == a[1..] + b;
      RunAppend(e, gs, a[1..], b);
    }
  }

  lemma {:induction false} RunIos(d: Disk, fs: Files, rs: seq<Request>)
    requires Sound(d, fs) && forall r :: r in rs ==> Sized(r)
    ensures OpsOk(fs, Ios(rs)) && Run(d, fs, Ios(rs)) == (ServeAll(d, rs), fs)
    decreases |rs|
  {
    forall i | 0 <= i < |rs| ensures OpOk(fs, Ios(rs)[i]) {}
    if rs != [] {
      ServeKeepsOk(d, rs[0]);
      assert Ios(rs)[1..] == Ios(rs[1..]);
      RunIos(Serve(d, rs[0]).0, fs, rs[1..]);
    }
  }

  /** One command as a run. */
  lemma RunOne(d: Disk, fs: Files, c: Command)
    requires Sound(d, fs) && LoadsExact(fs, c)
    ensures OpsOk(fs, [Control(c)])
    ensures Run(d, fs, [Control(c)]) == (Ioctl(d, fs, c).0, Ioctl(d, fs, c).1)
  {
    StepKeepsSound(d, fs, Control(c));
    assert [Control(c)][1..] == [];
  }

  /** Save, unlink, load again. */
  lemma SaveUnlinkLoad(d: Disk, fs: Files, name: string)
    requires Sound(d, fs) && d.file == Some(Truncated(name)) && name != "" && d.fname == Truncated(name) && d.bsize > 0
    ensures var ops := [Control(SaveDisk)] + [Control(UnlinkDisk)] + [Control(LoadDisk(name, true))];
            OpsOk(fs, ops) && Run(d, fs, ops) == (d, Save(d, fs))
  {
    SaveKeepsTails(d, fs);
    var saved, path := Save(d, fs), Truncated(name);
    var f := fs[path];
    assert saved[path] == d.data.value + f[|d.data.value|..];
    SizeExactIff(|f|);
    assert Loads(fs, name, true) && Loads(saved, name, true);
    RunOne(d, fs, SaveDisk);
    RunOne(d, saved, UnlinkDisk);
    RunOne(NO_DISK, saved, LoadDisk(name, true));
    assert LoadsExact(fs, LoadDisk(name, true));
    RunOneOk(fs, SaveDisk);
    RunOneOk(fs, UnlinkDisk);
    RunOneOk(fs, LoadDisk(name, true));
    RunOneOk(saved, LoadDisk(name, true));
    RunAppend(d, fs, [Control(SaveDisk)], [Control(UnlinkDisk)]);
    RunAppend(d, fs, [Control(SaveDisk)] + [Control(UnlinkDisk)], [Control(LoadDisk(name, true))]);
    assert saved[path][..d.bsize] == d.data.value;
  }

  lemma RunOneOk(fs: Files, c: Command)
    requires LoadsExact(fs, c)
    ensures OpsOk(fs, [Control(c)])
  {
  }

  /**
   The round trip as a sequence of operations: from the commands load, any requests, save, unlink and
   load the disk comes out as after the requests, and the file has its image in front of the old tail.
   */
  lemma CommandsRestoreImage(d: Disk, fs: Files, name: string, rs: seq<Request>)
    requires Sound(d, fs) && Loads(fs, name, true) && Sectors(|fs[Truncated(name)]|) < EXACT_SECTORS
    requires forall r :: r in rs ==> Sized(r)
    ensures var used := [Control(LoadDisk(name, true))] + Ios(rs);
            var ops := used + ([Control(SaveDisk)] + [Control(UnlinkDisk)] + [Control(LoadDisk(name, true))]);
            OpsOk(fs, used) && OpsOk(fs, ops) &&
            var (e, gs) := Run(d, fs, used);
            var (r, saved) := Run(d, fs, ops);
            && gs == fs && r == e && e.data.Some? && saved.Keys == fs.Keys
            && |e.data.value| <= |fs[Truncated(name)]|
            && saved[Truncated(name)] == e.data.value + fs[Truncated(name)][|e.data.value|..]
            && forall other :: other in fs && other != Truncated(name) ==> saved[other] == fs[other]
  {
    var load := LoadDisk(name, true);
    LoadIsSound(d, fs, name);
    LoadDiskReports(d, fs, name, true);
    var first := Load(d, fs, name, true).0;
    RunOne(d, fs, load);
    RunIos(first, fs, rs);
    RunAppend(d, fs, [Control(load)], Ios(rs));
    ServeAllKeepsOk(first, rs);
    var e := ServeAll(first, rs);
    SaveUnlinkLoad(e, fs, name);
    RunAppend(d, fs, [Control(load)] + Ios(rs),
              [Control(SaveDisk)] + [Control(UnlinkDisk)] + [Control(LoadDisk(name, true))]);
    SaveMeans(e, fs);
  }
}

/** struct own_disk and its operations, working in place. */
module Dubfl {
  import opened Common
  import opened DubflModel

  /** What the kernel's file layer gives the driver: positioned reads and writes of open files. */
  class FileSystem {
    var files: Files

    method VfsRead(path: string, off: nat, n: nat) returns (bytes: seq<Byte>)
      requires path in files && off + n <= |files[path]|
      ensures bytes == files[path][off..off + n]
    {
      bytes := files[path][off..off + n];
    }

    method VfsWrite(path: string, off: nat, bytes: seq<Byte>)
      requires path in files && off <= |files[path]|
      modifies this
      ensures files == old(files)[path := Overwrite(old(files)[path], off, bytes)]
    {
      files := files[path := Overwrite(files[path], off, bytes)];
    }
  }

  /** Writing one more sector behind those already written. */
  lemma OverwriteNext(s: seq<Byte>, data: seq<Byte>, off: nat)
    requires off + SECTOR <= |data|
    ensures off <= |Overwrite(s, 0, data[..off])|
    ensures Overwrite(Overwrite(s, 0, data[..off]), off, data[off..off + SECTOR])
            == Overwrite(s, 0, data[..off + SECTOR])
  {
    assert data[..off + SECTOR] == data[..off] + data[off..off + SECTOR];
    var t := Overwrite(s, 0, data[..off]);
    assert t[..off] == data[..off];
    if off + SECTOR < |s| {
      assert t[off + SECTOR..] == s[off + SECTOR..];
    }
  }

  class OwnDisk {
    var fname: string
    var ssize: nat
    var bsize: nat
    var data: array?<Byte>
    var f: Option<string>

    ghost function Value(): Disk
      reads this, data
    {
      Disk(fname, ssize, bsize, if data == null then None else Some(data[..]), f)
    }

    constructor ()
      ensures Value() == NO_DISK
    {
      fname, ssize, bsize, data, f := "", 0, 0, null, None;
    }

    method UnlinkFile()
      modifies this
      ensures Value() == NO_DISK
    {
      f, data, fname := None, null, "";
      ssize, bsize := 0, 0;
    }

    method LoadFile(world: FileSystem, name: string, alloc: bool) returns (code: int)
      modifies this
      ensures (Value(), code) == Load(old(Value()), world.files, name, alloc)
      ensures data == old(data) || data == null || fresh(data)
    {
      fname := Truncated(name);
      if |name| == 0 || fname !in world.files {
        return -ENOENT;
      }
      f := Some(fname);
      var off2 := |world.files[fname]|;
      SizeFits(off2);
      ssize := Sectors(off2);
      bsize := Size(ssize);
      if bsize == 0 || !alloc {
        UnlinkFile();
        return -ENOMEM;
      }
      data := new Byte[bsize];
      ReadImage(world, data, bsize);
      code := 0;
    }

    /** load_file's loop over the sectors. */
    method ReadImage(world: FileSystem, image: array<Byte>, size: nat)
      requires f.Some? && f.value in world.files && image.Length == size <= |world.files[f.value]|
      requires size % SECTOR == 0
      modifies image
      ensures image[..] == world.files[f.value][..size]
    {
      var off1: nat := 0;
      while off1 < size
        invariant off1 <= size && off1 % SECTOR == 0
        invariant image[..off1] == world.files[f.value][..off1]
      {
        var bytes := world.VfsRead(f.value, off1, SECTOR);
        Copy(image, off1, bytes);
        assert world.files[f.value][..off1 + SECTOR] == world.files[f.value][..off1] + bytes;
        off1 := off1 + SECTOR;
      }
      assert image[..off1] == image[..];
    }

    /** memcpy into the image. */
    method Copy(image: array<Byte>, at: nat, bytes: seq<Byte>)
      requires at + |bytes| <= image.Length
      modifies image
      ensures image[..] == old(image[..])[..at] + bytes + old(image[..])[at + |bytes|..]
      ensures image[..at + |bytes|] == old(image[..at]) + bytes
    {
      forall i | 0 <= i < |bytes| {
        image[at + i] := bytes[i];
      }
    }

    method SaveFile(world: FileSystem)
      requires CanSave(Value(), world.files)
      modifies world
      ensures world.files == Save(Value(), old(world.files))
    {
      var off1: nat := 0;
      ghost var files, path, image := world.files, f.value, data[..];
      assert Overwrite(files[path], 0, image[..0]) == files[path];
      assert files[path := files[path]] == files;
      while off1 < bsize
        invariant off1 <= bsize && off1 % SECTOR == 0
        invariant world.files == files[path := Overwrite(files[path], 0, image[..off1])]
      {
        OverwriteNext(files[path], image, off1);
        world.VfsWrite(f.value, off1, data[off1..off1 + SECTOR]);
        assert data[off1..off1 + SECTOR] == image[off1..off1 + SECTOR];
        off1 := off1 + SECTOR;
      }
      assert image[..off1] == image;
    }

    /** transfer and the checks before it, for the request at the head of the queue. */
    method OneRequest(r: Request) returns (reply: Reply)
      requires DiskOk(Value()) && Sized(r)
      modifies data
      ensures SameSize(old(Value()), Value())
      ensures (Value(), reply) == Serve(old(Value()), r)
    {
      ServeKeepsOk(Value(), r);
      if !r.fs || r.sector + r.nsect > ssize {
        return Reply(-EIO, r.buffer);
      }
      var offset, nbytes := r.sector * SECTOR, r.nsect * SECTOR;
      if data == null || nbytes == 0 {
        return Reply(0, r.buffer);
      }
      if r.write {
        Copy(data, offset, r.buffer);
        reply := Reply(0, r.buffer);
      } else {
        reply := Reply(0, data[offset..offset + nbytes]);
      }
    }

    method MyRequest(queue: seq<Request>) returns (replies: seq<Reply>)
      requires DiskOk(Value()) && forall r :: r in queue ==> Sized(r)
      modifies data
      ensures DiskOk(Value()) && Value() == ServeAll(old(Value()), queue)
      ensures replies == Replies(old(Value()), queue)
    {
      var rest := queue;
      replies := [];
      while rest != []
        invariant DiskOk(Value()) && forall r :: r in rest ==> Sized(r)
        invariant ServeAll(Value(), rest) == ServeAll(old(Value()), queue)
        invariant replies + Replies(Value(), rest) == Replies(old(Value()), queue)
        decreases |rest|
      {
        ghost var before := Value();
        var reply := OneRequest(rest[0]);
        Shift(replies, reply, Replies(Value(), rest[1..]));
        assert Replies(before, rest) == [reply] + Replies(Value(), rest[1..]);
        replies := replies + [reply];
        rest := rest[1..];
      }
    }

    method NewIoctl(world: FileSystem, c: Command) returns (code: int, path: string, size: nat)
      requires f.Some? && data != null ==> CanSave(Value(), world.files)
      modifies this, world
      ensures (Value(), world.files, code) == Ioctl(old(Value()), old(world.files), c)
      ensures c.GetInfo? ==> path == fname && size == bsize
    {
      path, size, code := "", 0, 0;
      match c
      case GetInfo =>
        path, size := fname, bsize;
      case SaveDisk =>
        if f.None? || data == null {
          code := -EFAULT;
        } else {
          SaveFile(world);
        }
      case UnlinkDisk =>
        UnlinkFile();
      case LoadDisk(name, alloc) =>
        var _ := LoadFile(world, name, alloc);
    }
  }

  lemma Shift<T>(a: seq<T>, x: T, b: seq<T>)
    ensures a + ([x] + b) == (a + [x]) + b
  {
  }
}
