/**
 The block-chained byte queue of Tasks/+TASKS/queue/queuel.c, and the same queue per channel in
 Tasks/+TASKS/confm/confm.c: a list of blocks of `size` bytes, written at the tail and read at
 the head. The block size is any number of at least 1. Allocation and copying do not fail.
 */
module ChainModel {
  import opened Common

  /** One block: the bytes data[rpos..wpos] are stored and not yet read. */
  datatype Cell = Cell(data: seq<Byte>, rpos: nat, wpos: nat)

  predicate CellOk(size: nat, c: Cell) {
    |c.data| == size && c.rpos <= c.wpos <= size
  }

  /** Only the tail has room, only the head has been read from, and no block is used up. */
  predicate ChainOk(size: nat, ch: seq<Cell>) {
    && (forall i :: 0 <= i < |ch| ==> CellOk(size, ch[i]) && ch[i].rpos < size)
    && (forall i :: 0 <= i < |ch| - 1 ==> ch[i].wpos == size)
    && (forall i :: 0 < i < |ch| ==> ch[i].rpos == 0)
    && (ch != [] ==> ch[|ch| - 1].wpos < size)
  }

  function Stored(c: Cell): seq<Byte>
    requires c.rpos <= c.wpos <= |c.data|
  {
    c.data[c.rpos..c.wpos]
  }

  predicate Readable(ch: seq<Cell>) {
    forall i :: 0 <= i < |ch| ==> ch[i].rpos <= ch[i].wpos <= |ch[i].data|
  }

  /** The byte sequence that a chain stands for. */
  function Contents(ch: seq<Cell>): seq<Byte>
    requires Readable(ch)
  {
    if ch == [] then [] else Stored(ch[0]) + Contents(ch[1..])
  }

  lemma {:induction false} ContentsOfLast(ch: seq<Cell>)
    requires Readable(ch) && ch != []
    ensures Contents(ch) == Contents(ch[..|ch| - 1]) + Stored(ch[|ch| - 1])
  {
    if |ch| == 1 {
      assert ch[1..] == [] && ch[..0] == [];
      assert Contents(ch) == Stored(ch[0]) + Contents(ch[1..]);
    } else {
      var init := ch[..|ch| - 1];
      ContentsOfLast(ch[1..]);
      assert ch[1..][..|ch| - 2] == init[1..];
      assert Contents(init) == Stored(ch[0]) + Contents(init[1..]);
      assert Contents(ch) == Stored(ch[0]) + (Contents(init[1..]) + Stored(ch[|ch| - 1]));
    }
  }

  /** Appending bytes to the tail block appends them to the contents. */
  lemma ContentsAfterPut(ch: seq<Cell>, c: Cell, src: seq<Byte>)
    requires Readable(ch) && ch != [] && c.rpos <= c.wpos <= |c.data|
    requires Stored(c) == Stored(ch[|ch| - 1]) + src
    ensures Contents(ch[|ch| - 1 := c]) == Contents(ch) + src
  {
    var to := ch[|ch| - 1 := c];
    ContentsOfLast(ch);
    ContentsOfLast(to);
    assert to[..|ch| - 1] == ch[..|ch| - 1];
  }

  /** A block without data adds nothing. */
  lemma ContentsAfterNew(ch: seq<Cell>, c: Cell)
    requires Readable(ch) && c.rpos == c.wpos <= |c.data|
    ensures Contents(ch + [c]) == Contents(ch)
  {
    ContentsOfLast(ch + [c]);
    assert (ch + [c])[..|ch|] == ch;
  }

  /** Only the tail can be without data, so a head that is read empty and not full ends the contents. */
  lemma ContentsOfDrained(size: nat, ch: seq<Cell>)
    requires ChainOk(size, ch) && ch != [] && ch[0].rpos == ch[0].wpos
    ensures |ch| == 1 && Contents(ch) == []
  {
    assert ch[1..] == [];
  }

  lemma {:induction false} MulGap(a: int, b: int, size: nat)
    requires a < b
    ensures a * size + size <= b * size
    decreases b - a
  {
    assert b * size == (b - 1) * size + size;
    if a < b - 1 { MulGap(a, b - 1, size); }
  }

  lemma DivisionIsUnique(x: nat, size: nat, q: nat, r: nat)
    requires size >= 1 && x == q * size + r && r < size
    ensures q == x / size && r == x % size
  {
    var d, m := x / size, x % size;
    assert x == d * size + m;
    if q < d {
      MulGap(q, d, size);
    } else if q > d {
      MulGap(d, q, size);
    }
  }

  /** Filling up the tail keeps the chain well formed, with a new tail once it is full. */
  lemma AppendKeepsChain(size: nat, ch: seq<Cell>, c: Cell, empty: Cell)
    requires size >= 1 && ChainOk(size, ch) && ch != []
    requires CellOk(size, c) && c.rpos == ch[|ch| - 1].rpos && CellOk(size, empty) && empty.wpos == 0
    ensures c.wpos < size ==> ChainOk(size, ch[|ch| - 1 := c])
    ensures c.wpos == size ==> ChainOk(size, ch[|ch| - 1 := c] + [empty])
  {
  }

  /**
   A chain after `written` has gone in and `consumed` has come out; `filled` blocks were written
   to the end and `drained` blocks were read to the end.
   */
  predicate Tally(size: nat, ch: seq<Cell>, written: seq<Byte>, consumed: seq<Byte>, filled: nat, drained: nat) {
    && size >= 1
    && ChainOk(size, ch)
    && written == consumed + Contents(ch)
    && (ch == [] ==> written == [])
    && (ch != [] ==>
        Counts(size, |ch|, ch[0].rpos, ch[|ch| - 1].wpos, |written|, |consumed|, filled, drained))
  }

  predicate Counts(size: nat, blocks: nat, rpos: nat, wpos: nat, written: nat, consumed: nat,
                   filled: nat, drained: nat)
  {
    && written == filled * size + wpos
    && consumed == drained * size + rpos
    && blocks == filled + 1 - drained
  }

  /** The tail has been filled and a new one follows. */
  lemma CountsFilled(size: nat, blocks: nat, rpos: nat, written: nat, consumed: nat, filled: nat, drained: nat)
    requires Counts(size, blocks, rpos, size, written, consumed, filled, drained)
    ensures Counts(size, blocks + 1, rpos, 0, written, consumed, filled + 1, drained)
  {
    assert (filled + 1) * size == filled * size + size;
  }

  /** The head has been read to its end and removed. */
  lemma CountsDrained(size: nat, blocks: nat, wpos: nat, written: nat, consumed: nat, filled: nat, drained: nat)
    requires Counts(size, blocks, size, wpos, written, consumed, filled, drained) && blocks > 0
    ensures Counts(size, blocks - 1, 0, wpos, written, consumed, filled, drained + 1)
  {
    assert (drained + 1) * size == drained * size + size;
  }

  /** The number of blocks, and a bound on their storage, from the bytes written and read so far. */
  lemma ChainArithmetic(size: nat, ch: seq<Cell>, written: seq<Byte>, consumed: seq<Byte>, filled: nat, drained: nat)
    requires Tally(size, ch, written, consumed, filled, drained) && ch != []
    ensures |ch| == |written| / size + 1 - |consumed| / size
    ensures |ch| * size <= |written| - |consumed| + 2 * size - 1
  {
    DivisionIsUnique(|written|, size, filled, ch[|ch| - 1].wpos);
    DivisionIsUnique(|consumed|, size, drained, ch[0].rpos);
    assert |ch| * size == filled * size + size - drained * size;
  }

  /** The first block of an empty queue. */
  lemma TallyFirst(size: nat, ch: seq<Cell>, written: seq<Byte>, consumed: seq<Byte>, c: Cell)
    requires Tally(size, [], written, consumed, 0, 0) && CellOk(size, c) && c.wpos == 0 && ch == [c]
    ensures Tally(size, ch, written, consumed, 0, 0)
  {
    assert ch[1..] == [];
  }

  lemma AppendSlices(w: seq<Byte>, buf: seq<Byte>, i: nat)
    requires i <= |buf|
    ensures (w + buf[..i]) + buf[i..] == w + buf
    ensures w + [] == w
    ensures buf[0..] == buf
  {
  }

  /** The chain after `src` was copied into the tail, which became `c`: a new tail follows if that filled it. */
  predicate Appended(size: nat, ch: seq<Cell>, c: Cell, src: seq<Byte>, after: seq<Cell>)
    requires ch != [] && CellOk(size, ch[|ch| - 1])
  {
    var t := ch[|ch| - 1];
    && CellOk(size, c)
    && c.rpos == t.rpos && c.wpos == t.wpos + |src| && Stored(c) == Stored(t) + src
    && (c.wpos < size ==> after == ch[|ch| - 1 := c])
    && (c.wpos == size ==> after != [] && CellOk(size, after[|after| - 1]) && after[|after| - 1].wpos == 0
                           && after == ch[|ch| - 1 := c] + [after[|after| - 1]])
  }

  /** One pass of the write loop. */
  lemma TallyAppend(size: nat, ch: seq<Cell>, written: seq<Byte>, consumed: seq<Byte>, filled: nat, drained: nat,
                    c: Cell, src: seq<Byte>, after: seq<Cell>)
    requires Tally(size, ch, written, consumed, filled, drained) && ch != [] && Appended(size, ch, c, src, after)
    ensures Tally(size, after, written + src, consumed, if c.wpos == size then filled + 1 else filled, drained)
  {
    ContentsAfterAppend(size, ch, c, src, after);
    var to := written + src;
    assert to == consumed + (Contents(ch) + src);
    if c.wpos == size {
      CountsFilled(size, |ch|, after[0].rpos, |to|, |consumed|, filled, drained);
    }
  }

  lemma ContentsAfterAppend(size: nat, ch: seq<Cell>, c: Cell, src: seq<Byte>, after: seq<Cell>)
    requires size >= 1 && ChainOk(size, ch) && ch != [] && Appended(size, ch, c, src, after)
    ensures ChainOk(size, after) && Contents(after) == Contents(ch) + src
  {
    ContentsAfterPut(ch, c, src);
    if c.wpos == size {
      AppendKeepsChain(size, ch, c, after[|after| - 1]);
      ContentsAfterNew(ch[|ch| - 1 := c], after[|after| - 1]);
    } else {
      AppendKeepsChain(size, ch, c, Cell(c.data, 0, 0));
    }
  }

  /** The chain after `out` was copied out of the head: a head read to its very end is removed. */
  predicate Removed(size: nat, ch: seq<Cell>, out: seq<Byte>, after: seq<Cell>)
    requires ch != []
  {
    var h := ch[0].(rpos := ch[0].rpos + |out|);
    && h.rpos <= h.wpos <= |h.data|
    && Stored(ch[0]) == out + Stored(h)
    && after == if h.rpos >= size then ch[1..] else [h] + ch[1..]
  }

  /** What removing from the head leaves well formed: a head that is removed never was the tail. */
  lemma RemoveKeepsChain(size: nat, ch: seq<Cell>, out: seq<Byte>, after: seq<Cell>)
    requires size >= 1 && ChainOk(size, ch) && ch != [] && Removed(size, ch, out, after)
    ensures after != [] && ChainOk(size, after)
    ensures after[|after| - 1].wpos == ch[|ch| - 1].wpos
  {
    assert CellOk(size, ch[0]);
  }

  lemma ContentsAfterRemove(size: nat, ch: seq<Cell>, out: seq<Byte>, after: seq<Cell>)
    requires size >= 1 && ChainOk(size, ch) && ChainOk(size, after) && ch != [] && Removed(size, ch, out, after)
    ensures Contents(ch) == out + Contents(after)
  {
    var h := ch[0].(rpos := ch[0].rpos + |out|);
    Regroup(out, Stored(h), Contents(ch[1..]));
    if h.rpos >= size {
      assert CellOk(size, ch[0]);
      assert Stored(h) == [] && Stored(ch[0]) == out;
    } else {
      assert after[1..] == ch[1..];
      assert Contents(after) == Stored(h) + Contents(ch[1..]);
    }
  }

  /** A head that is read empty but was not filled is the whole rest of the queue. */
  lemma RemoveDrains(size: nat, ch: seq<Cell>, out: seq<Byte>, after: seq<Cell>)
    requires size >= 1 && ChainOk(size, ch) && ch != [] && Removed(size, ch, out, after)
    requires ch[0].rpos + |out| == ch[0].wpos < size
    ensures Contents(after) == []
  {
    RemoveKeepsChain(size, ch, out, after);
    ContentsOfDrained(size, after);
  }

  lemma Regroup(a: seq<Byte>, b: seq<Byte>, c: seq<Byte>)
    ensures a + (b + c) == (a + b) + c
  {
  }

  /** One pass of the read loop. */
  lemma TallyRemove(size: nat, ch: seq<Cell>, written: seq<Byte>, consumed: seq<Byte>, filled: nat, drained: nat,
                    out: seq<Byte>, after: seq<Cell>)
    requires Tally(size, ch, written, consumed, filled, drained) && ch != [] && Removed(size, ch, out, after)
    ensures Tally(size, after, written, consumed + out, filled,
                  if ch[0].rpos + |out| == size then drained + 1 else drained)
    ensures after != []
    ensures ch[0].rpos + |out| == ch[0].wpos < size ==> consumed + out == written
  {
    RemoveKeepsChain(size, ch, out, after);
    if ch[0].rpos + |out| == ch[0].wpos < size { RemoveDrains(size, ch, out, after); }
    ContentsAfterRemove(size, ch, out, after);
    Regroup(consumed, out, Contents(after));
    if ch[0].rpos + |out| == size {
      CountsDrained(size, |ch|, ch[|ch| - 1].wpos, |written|, |consumed + out|, filled, drained);
    }
  }

  /** What is not consumed is what the chain holds. */
  lemma RestIsContents(written: seq<Byte>, consumed: seq<Byte>, rest: seq<Byte>)
    requires written == consumed + rest
    ensures rest == written[|consumed|..]
  {
  }
}

module Queue {
  import opened Common
  import opened ChainModel

  class Block {
    var wpos: nat
    var rpos: nat
    const data: array<Byte>

    constructor (size: nat)
      ensures wpos == 0 && rpos == 0 && data.Length == size && fresh(data)
    {
      wpos, rpos := 0, 0;
      data := new Byte[size];
    }

    ghost function View(): Cell
      reads this, data
    {
      Cell(data[..], rpos, wpos)
    }

    method CopyIn(src: seq<Byte>)
      requires rpos <= wpos && wpos + |src| <= data.Length
      modifies this`wpos, data
      ensures rpos == old(rpos) && wpos == old(wpos) + |src|
      ensures Stored(View()) == Stored(old(View())) + src
    {
      forall i | 0 <= i < |src| { data[wpos + i] := src[i]; }
      wpos := wpos + |src|;
      assert data[old(wpos)..wpos] == src;
      assert data[rpos..old(wpos)] == old(data[rpos..wpos]);
    }

    method CopyOut(n: nat) returns (out: seq<Byte>)
      requires rpos + n <= wpos <= data.Length
      modifies this`rpos
      ensures rpos == old(rpos) + n && |out| == n
      ensures Stored(old(View())) == out + Stored(View())
    {
      out := data[rpos..rpos + n];
      rpos := rpos + n;
    }
  }

  /** `written` and `consumed` are all bytes that ever went in and came out. */
  class Queue {
    const size: nat
    var blocks: seq<Block>
    ghost var Repr: set<object>
    ghost var written: seq<Byte>
    ghost var consumed: seq<Byte>
    ghost var filled: nat
    ghost var drained: nat

    /** The blocks and their buffers are distinct objects of this queue. */
    ghost predicate Shape()
      reads `blocks, `Repr
    {
      && this !in Repr
      && (forall i :: 0 <= i < |blocks| ==> blocks[i] in Repr && blocks[i].data in Repr)
      && (forall i, j :: 0 <= i < j < |blocks| ==> blocks[i] != blocks[j] && blocks[i].data != blocks[j].data)
    }

    ghost function Chain(): (ch: seq<Cell>)
      requires Shape()
      reads `blocks, `Repr, Repr
      ensures |ch| == |blocks| && forall i :: 0 <= i < |ch| ==> ch[i] == blocks[i].View()
    {
      var bs, objects := blocks, Repr;
      seq(|bs|, i requires 0 <= i < |bs| && bs[i] in objects && bs[i].data in objects reads objects => bs[i].View())
    }

    ghost predicate Valid()
      reads this, Repr
    {
      Shape() && Tally(size, Chain(), written, consumed, filled, drained)
    }

    constructor (size: nat)
      requires size >= 1
      ensures Valid() && fresh(Repr) && this.size == size
      ensures written == [] && consumed == [] && blocks == []
    {
      this.size := size;
      blocks := [];
      Repr := {};
      written, consumed, filled, drained := [], [], 0, 0;
    }

    /** The tail has room for at least one byte. */
    ghost predicate Ready()
      reads this, Repr
    {
      Valid() && blocks != [] && blocks[|blocks| - 1].wpos < size
    }

    /** new(): an empty block at the tail. */
    method New() returns (ghost c: Cell)
      requires Shape()
      modifies this`blocks, this`Repr
      ensures Shape() && fresh(Repr - old(Repr)) && |blocks| == |old(blocks)| + 1
      ensures CellOk(size, c) && c.wpos == 0 && Chain() == old(Chain()) + [c]
    {
      ghost var before := Chain();
      var b := new Block(size);
      blocks := blocks + [b];
      Repr := Repr + {b, b.data};
      c := b.View();
      assert Chain() == before + [c];
    }

    /** Copies bytes into the tail block. */
    method FillTail(src: seq<Byte>) returns (ghost c: Cell)
      requires Shape() && blocks != []
      requires var t := blocks[|blocks| - 1].View(); t.rpos <= t.wpos && t.wpos + |src| <= |t.data|
      modifies Repr
      ensures var t := old(Chain())[|blocks| - 1];
              && |c.data| == |t.data| && c.rpos == t.rpos && c.wpos == t.wpos + |src|
              && Stored(c) == Stored(t) + src
      ensures Chain() == old(Chain())[|blocks| - 1 := c]
    {
      blocks[|blocks| - 1].CopyIn(src);
      c := blocks[|blocks| - 1].View();
    }

    /** The loop body of queue_write: bytes that fit into the tail, and a new tail once it is full. */
    method Append(src: seq<Byte>)
      requires Valid() && blocks != [] && |src| <= size - blocks[|blocks| - 1].wpos
      modifies this, Repr
      ensures Ready() && fresh(Repr - old(Repr))
      ensures written == old(written) + src && consumed == old(consumed)
    {
      ghost var before := Chain();
      assert CellOk(size, before[|before| - 1]);
      ghost var c := AppendBlocks(src);
      TallyAppend(size, before, written, consumed, filled, drained, c, src, Chain());
      written, filled := written + src, if c.wpos == size then filled + 1 else filled;
    }

    method AppendBlocks(src: seq<Byte>) returns (ghost c: Cell)
      requires Shape() && blocks != [] && CellOk(size, blocks[|blocks| - 1].View())
      requires |src| <= size - blocks[|blocks| - 1].wpos
      modifies `blocks, `Repr, Repr
      ensures Shape() && blocks != [] && fresh(Repr - old(Repr))
      ensures Appended(size, old(Chain()), c, src, Chain())
    {
      c := FillTail(src);
      if blocks[|blocks| - 1].wpos >= size {
        ghost var _ := New();
      }
    }

    /** The first block of a queue that has none. */
    method EnsureBlock()
      requires Valid()
      modifies this, Repr
      ensures Ready() && fresh(Repr - old(Repr))
      ensures written == old(written) && consumed == old(consumed)
    {
      if blocks == [] {
        filled, drained := 0, 0;
        ghost var c := New();
        TallyFirst(size, Chain(), written, consumed, c);
      }
    }

    /** Appends all bytes. */
    method Write(buf: seq<Byte>) returns (sumlen: nat)
      requires Valid()
      modifies this, Repr
      ensures Valid() && fresh(Repr - old(Repr)) && blocks != []
      ensures sumlen == |buf| && written == old(written) + buf && consumed == old(consumed)
    {
      EnsureBlock();
      sumlen := WriteLoop(buf);
    }

    /** The do-while loop of queue_write, which makes progress because the tail always has room. */
    method WriteLoop(buf: seq<Byte>) returns (sumlen: nat)
      requires Ready()
      modifies this, Repr
      ensures Ready() && fresh(Repr - old(Repr))
      ensures sumlen == |buf| && written == old(written) + buf && consumed == old(consumed)
    {
      sumlen := 0;
      var count := |buf|;
      ghost var target := written + buf;
      AppendSlices(written, buf, 0);
      while true
        invariant Ready() && fresh(Repr - old(Repr))
        invariant 0 <= count && sumlen + count == |buf|
        invariant written + buf[sumlen..] == target && consumed == old(consumed)
        decreases count
      {
        var free := size - blocks[|blocks| - 1].wpos;
        var len := if count < free then count else free;
        AppendSlices(written, buf[sumlen..], len);
        Append(buf[sumlen..][..len]);
        count, sumlen := count - len, sumlen + len;
        if count == 0 { break; }
      }
    }

    /** erase(): drops the head block; an empty list is left alone. */
    method Erase()
      requires Shape()
      modifies `blocks
      ensures Shape() && blocks == (if old(blocks) == [] then [] else old(blocks)[1..])
      ensures Chain() == (if old(blocks) == [] then [] else old(Chain())[1..])
    {
      if blocks == [] { return; }
      ghost var before := Chain();
      blocks := blocks[1..];
      assert Chain() == before[1..];
    }

    /** Copies bytes out of the head block. */
    method DrawHead(n: nat) returns (out: seq<Byte>)
      requires Shape() && blocks != []
      requires var h := blocks[0].View(); h.rpos + n <= h.wpos <= |h.data|
      modifies Repr
      ensures |out| == n && Chain() == old(Chain())[0 := Chain()[0]]
      ensures Chain()[0] == old(Chain())[0].(rpos := old(Chain())[0].rpos + n)
      ensures Stored(old(Chain())[0]) == out + Stored(Chain()[0])
    {
      out := blocks[0].CopyOut(n);
    }

    /** Copies bytes out of the head block and erases it when it is read to its very end. */
    method RemoveBlocks(n: nat) returns (out: seq<Byte>)
      requires Shape() && blocks != []
      requires var h := blocks[0].View(); h.rpos + n <= h.wpos <= |h.data|
      modifies `blocks, Repr
      ensures Shape() && |out| == n && Removed(size, old(Chain()), out, Chain())
    {
      ghost var before := Chain();
      out := DrawHead(n);
      assert Chain()[1..] == before[1..];
      if blocks[0].rpos >= size {
        Erase();
      } else {
        assert Chain() == [Chain()[0]] + before[1..];
      }
    }

    /**
     One pass of the read loop. The list never runs empty here, because a block that is full is
     not the tail; a head that is read empty without being full leaves nothing to read.
     */
    method Take(n: nat) returns (out: seq<Byte>)
      requires Valid() && blocks != [] && n <= blocks[0].wpos - blocks[0].rpos
      modifies this, Repr
      ensures Valid() && blocks != [] && Repr == old(Repr)
      ensures |out| == n && consumed == old(consumed) + out && written == old(written)
      ensures old(blocks[0].rpos) + n == old(blocks[0].wpos) < size ==> consumed == written
    {
      ghost var before := Chain();
      assert CellOk(size, before[0]);
      out := RemoveBlocks(n);
      TallyRemove(size, before, written, consumed, filled, drained, out, Chain());
      consumed, drained := consumed + out, if before[0].rpos + n == size then drained + 1 else drained;
    }

    /** Reads and removes bytes from the front: as many as asked for, or all that there are. */
    method Read(count: nat) returns (out: seq<Byte>)
      requires Valid()
      modifies this, Repr
      ensures Valid() && Repr == old(Repr)
      ensures consumed == old(consumed) + out && written == old(written)
      ensures |out| == Min(count, |old(written)| - |old(consumed)|)
    {
      out := [];
      if blocks == [] || blocks[0].rpos >= blocks[0].wpos {
        if blocks != [] {
          assert CellOk(size, Chain()[0]);
          ContentsOfDrained(size, Chain());
        }
        return;
      }
      var left := count;
      while true
        invariant Valid() && blocks != [] && Repr == old(Repr) && left >= 0
        invariant consumed == old(consumed) + out && written == old(written)
        invariant |out| + left == count
        decreases left
      {
        assert CellOk(size, Chain()[0]);
        var free, toEnd := blocks[0].wpos - blocks[0].rpos, size - blocks[0].rpos;
        var len := if left < free then left else free;
        var piece := Take(len);
        out := out + piece;
        if len >= free {
          if len < toEnd { break; }
        }
        left := left - len;
        if left == 0 { break; }
      }
    }

    /** First in, first out: the bytes read so far are a prefix of the bytes written, the chain holds the rest. */
    lemma FirstInFirstOut()
      requires Valid()
      ensures consumed <= written && Contents(Chain()) == written[|consumed|..]
    {
      RestIsContents(written, consumed, Contents(Chain()));
    }

    /** The number of blocks and the storage they take, once something was written. */
    lemma BlockCount()
      requires Valid() && blocks != []
      ensures |blocks| == |written| / size + 1 - |consumed| / size
      ensures |blocks| * size <= |written| - |consumed| + 2 * size - 1
    {
      ChainArithmetic(size, Chain(), written, consumed, filled, drained);
    }
  }
}
