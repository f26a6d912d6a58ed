/** ext2_file_read and ext2_file_write over the blocks of one file: the ring of buffers behaves
    like a plain slice of bytes. */
module FileIO {
  import opened Geometry

  const NBUF: nat := 32
  const TWO_GB: nat := 2147483647

  type Byte = bv8

  /** The blocks a file has; a block that is not there is a hole. */
  type Blocks = map<nat, seq<Byte>>

  function Zeros(n: nat): (z: seq<Byte>)
    ensures |z| == n && forall i | 0 <= i < n :: z[i] == 0
  {
    seq(n, i => 0)
  }

  ghost predicate WholeBlocks(blocks: Blocks, blockSize: Pos) {
    forall b | b in blocks :: |blocks[b]| == blockSize
  }

  /** The contents of a block, zeros for a hole. */
  function Content(blocks: Blocks, blockSize: Pos, b: nat): (c: seq<Byte>)
    requires WholeBlocks(blocks, blockSize)
    ensures |c| == blockSize
  {
    if b in blocks then blocks[b] else Zeros(blockSize)
  }

  /** Byte p of the file. */
  function ByteAt(blocks: Blocks, blockSize: Pos, p: nat): Byte
    requires WholeBlocks(blocks, blockSize)
  {
    DivFits(p, blockSize);
    Content(blocks, blockSize, p / blockSize)[p % blockSize]
  }

  /** The plain view: n bytes of the file from byte p on. */
  function Slice(blocks: Blocks, blockSize: Pos, p: nat, n: nat): (s: seq<Byte>)
    requires WholeBlocks(blocks, blockSize)
    ensures |s| == n
  {
    seq(n, i requires 0 <= i < n => ByteAt(blocks, blockSize, p + i))
  }

  lemma DivFits(p: nat, blockSize: Pos)
    ensures p / blockSize >= 0 && 0 <= p % blockSize < blockSize && p == p / blockSize * blockSize + p % blockSize
  {
  }

  /** Bytes that lie in one block are a stretch of its contents. */
  lemma OneBlock(blocks: Blocks, blockSize: Pos, b: nat, off: nat, n: nat)
    requires WholeBlocks(blocks, blockSize) && off + n <= blockSize
    ensures Slice(blocks, blockSize, b * blockSize + off, n) == Content(blocks, blockSize, b)[off..off + n]
  {
    var s, c := Slice(blocks, blockSize, b * blockSize + off, n), Content(blocks, blockSize, b)[off..off + n];
    forall i | 0 <= i < |s|
      ensures s[i] == c[i]
    {
      ByteInBlock(blocks, blockSize, b, off + i);
    }
  }

  lemma ByteInBlock(blocks: Blocks, blockSize: Pos, b: nat, o: nat)
    requires WholeBlocks(blocks, blockSize) && o < blockSize
    ensures ByteAt(blocks, blockSize, b * blockSize + o) == Content(blocks, blockSize, b)[o]
  {
    DivModUnique(b * blockSize + o, blockSize, b, o);
  }

  lemma SliceConcat(blocks: Blocks, blockSize: Pos, p: nat, m: nat, n: nat)
    requires WholeBlocks(blocks, blockSize)
    ensures Slice(blocks, blockSize, p, m + n) == Slice(blocks, blockSize, p, m) + Slice(blocks, blockSize, p + m, n)
  {
  }

  /** The byte where block b starts. */
  function Start(b: nat, blockSize: Pos): nat {
    b * blockSize
  }

  lemma PosInBlock(p: nat, blockSize: Pos)
    ensures p / blockSize >= 0 && 0 <= p % blockSize < blockSize && p == Start(p / blockSize, blockSize) + p % blockSize
  {
  }

  lemma StartNext(b: nat, blockSize: Pos)
    ensures Start(b + 1, blockSize) == Start(b, blockSize) + blockSize
  {
  }

  lemma Copied(blocks: Blocks, blockSize: Pos, pos: nat, out: seq<Byte>, b: nat, off: nat, n: nat)
    requires WholeBlocks(blocks, blockSize) && out == Slice(blocks, blockSize, pos, |out|)
    requires pos + |out| == Start(b, blockSize) + off && off + n <= blockSize
    ensures Slice(blocks, blockSize, pos, |out| + n) == out + (if b in blocks then blocks[b][off..off + n] else Zeros(n))
  {
    hide Slice;
    OneBlock(blocks, blockSize, b, off, n);
    SliceConcat(blocks, blockSize, pos, |out|, n);
  }

  // ----- the ring

  /** What getblk returns: the buffer of a block, or nothing for a hole. */
  datatype Handle = Hole | Buffer(block: nat)

  function HandleOf(blocks: Blocks, b: nat): Handle {
    if b in blocks then Buffer(b) else Hole
  }

  /** The buffers held for the blocks from a up to b. */
  function Held(blocks: Blocks, a: nat, b: nat): multiset<nat>
    requires a <= b
    decreases b - a
  {
    if a == b then multiset{}
    else Held(blocks, a, b - 1) + (if b - 1 in blocks then multiset{b - 1} else multiset{})
  }

  lemma {:induction false} HeldFirst(blocks: Blocks, a: nat, b: nat)
    requires a < b
    ensures Held(blocks, a, b) == (if a in blocks then multiset{a} else multiset{}) + Held(blocks, a + 1, b)
    decreases b - a
  {
    if a + 1 < b {
      HeldFirst(blocks, a, b - 1);
    } else {
      assert Held(blocks, a, a) == multiset{} && Held(blocks, a + 1, a + 1) == multiset{};
    }
  }

  /** Where the handle counted n is kept. */
  function Place(n: nat): (i: nat)
    ensures i < NBUF
  {
    n % NBUF
  }

  /** Slots from count c up to count p of the ring hold the handles of the blocks from first on. */
  ghost predicate Ring(ring: seq<Handle>, blocks: Blocks, first: nat, c: nat, p: nat) {
    && |ring| == NBUF && c <= p <= c + NBUF
    && forall j | c <= j < p :: ring[Place(j)] == HandleOf(blocks, first + j)
  }

  /** At most NBUF outstanding counts have different places in the ring. */
  lemma RingPut(ring: seq<Handle>, blocks: Blocks, first: nat, c: nat, p: nat)
    requires Ring(ring, blocks, first, c, p) && p < c + NBUF
    ensures Ring(ring[Place(p) := HandleOf(blocks, first + p)], blocks, first, c, p + 1)
  {
  }

  lemma NextPlace(n: nat)
    ensures Place(n + 1) == if Place(n) + 1 == NBUF then 0 else Place(n) + 1
  {
  }

  /** Two counts in the ring are at the same place only when the ring is empty or full. */
  lemma SamePlace(c: nat, p: nat)
    requires c <= p <= c + NBUF
    ensures Place(c) == Place(p) <==> p == c || p == c + NBUF
  {
  }

  lemma HeldLast(blocks: Blocks, a: nat, b: nat)
    requires a <= b
    ensures Held(blocks, a, b + 1) == Held(blocks, a, b) + (if b in blocks then multiset{b} else multiset{})
  {
  }

  lemma RingSize(ring: seq<Handle>, blocks: Blocks, first: nat, c: nat, p: nat)
    requires Ring(ring, blocks, first, c, p)
    ensures c <= p <= c + NBUF
  {
  }

  lemma RingEmpty(ring: seq<Handle>, blocks: Blocks, first: nat)
    requires |ring| == NBUF
    ensures Ring(ring, blocks, first, 0, 0) && Place(0) == 0
  {
  }

  lemma RingTake(ring: seq<Handle>, blocks: Blocks, first: nat, c: nat, p: nat)
    requires Ring(ring, blocks, first, c, p) && c < p
    ensures |ring| == NBUF && ring[Place(c)] == HandleOf(blocks, first + c) && Ring(ring, blocks, first, c + 1, p)
  {
  }

  lemma HeldNone(blocks: Blocks, a: nat)
    ensures Held(blocks, a, a) == multiset{}
  {
  }

  lemma SliceNone(blocks: Blocks, blockSize: Pos, p: nat)
    requires WholeBlocks(blocks, blockSize)
    ensures Slice(blocks, blockSize, p, 0) == []
  {
  }

  /** While bytes are left the ring holds buffers or more are wanted. */
  lemma MoreWanted(first: nat, c: nat, p: nat, wanted: nat, blockSize: Pos, skip: nat, total: nat, pos: nat, got: nat, offset: nat)
    requires Start(p + wanted, blockSize) >= skip + total && pos == Start(first, blockSize) + skip
    requires got < total && pos + got == Start(first + c, blockSize) + offset && c <= p
    ensures p + wanted > c
  {
    assert (first + c) * blockSize == first * blockSize + c * blockSize;
    MoreBlocks(p + wanted, c, blockSize);
  }

  class File {
    var blocks: Blocks
    var size: nat
    var held: multiset<nat>
    const blockSize: Pos
    const bits: nat

    ghost predicate Valid()
      reads this
    {
      WholeBlocks(blocks, blockSize) && blockSize == Pow2(bits)
    }

    /** ext2_getblk without create: the buffer is held until it is released. */
    method GetBlock(b: nat) returns (h: Handle)
      requires Valid()
      modifies this`held
      ensures h == HandleOf(blocks, b)
      ensures held == old(held) + (if b in blocks then multiset{b} else multiset{})
    {
      if b in blocks {
        held := held + multiset{b};
        h := Buffer(b);
      } else {
        h := Hole;
      }
    }

    method Release(h: Handle)
      requires h.Buffer? ==> h.block in held
      modifies this`held
      ensures held == old(held) - (if h.Buffer? then multiset{h.block} else multiset{})
    {
      if h.Buffer? {
        held := held - multiset{h.block};
      }
    }

    /** How many blocks to ask for: enough for the bytes wanted, when reading ahead as many as that
        allows, and none past the end of the file. */
    method Plan(block: nat, offset: nat, left: nat, readAhead: bool, ahead: nat) returns (n: nat)
      requires offset < blockSize && Start(block, blockSize) + offset + left <= size && left > 0
      ensures Start(n, blockSize) >= offset + left
      ensures n > 0 && Start(block + n - 1, blockSize) < size
      ensures readAhead && n < ahead ==> Start(block + n, blockSize) >= size
      ensures !readAhead || n > ahead ==> Start(n - 1, blockSize) < offset + left
    {
      var sizeBlocks := (size + blockSize - 1) / blockSize;
      n := (left + offset + blockSize - 1) / blockSize;
      CeilIs(left + offset, blockSize);
      CeilIs(size, blockSize);
      ghost var least := n;
      StartSum(block, n - 1, blockSize);
      if readAhead {
        if n < ahead {
          MoreBlocks(n, ahead, blockSize);
          n := ahead;
        }
        StartSum(block, n, blockSize);
        MoreBlocks(block + n, sizeBlocks, blockSize);
        if block + n > sizeBlocks {
          RestOfFile(block, sizeBlocks, blockSize, offset + left);
          n := sizeBlocks - block;
        }
        MoreBlocks(n - 1, least - 1, blockSize);
        MoreBlocks(block + n - 1, sizeBlocks - 1, blockSize);
      }
    }

    method PutOne(ring: array<Handle>, bhb: nat, block: nat, ghost first: nat, ghost c: nat, ghost p: nat, ghost base: multiset<nat>)
      returns (h: Handle)
      requires Valid() && ring.Length == NBUF && bhb == Place(p) && block == first + p && c <= p
      requires Ring(ring[..], blocks, first, c, p) && p < c + NBUF
      requires held == base + Held(blocks, first + c, first + p)
      modifies ring, this`held
      ensures Ring(ring[..], blocks, first, c, p + 1)
      ensures held == base + Held(blocks, first + c, first + (p + 1))
    {
      hide Held, Ring, Place;
      RingPut(ring[..], blocks, first, c, p);
      HeldLast(blocks, first + c, first + p);
      h := GetBlock(block);
      ring[bhb] := h;
      assert ring[..] == old(ring[..])[bhb := h];
    }

    method GiveBack(h: Handle, ghost b: nat, ghost to: nat, ghost base: multiset<nat>)
      requires h == HandleOf(blocks, b) && b < to && held == base + Held(blocks, b, to)
      modifies this`held
      ensures held == base + Held(blocks, b + 1, to)
    {
      hide Held;
      HeldFirst(blocks, b, to);
      Release(h);
    }

    /** Takes buffers into the ring until one is up to date, the ring is full or none is wanted.
        c and take count the handles taken out of and put into the ring so far. */
    method Fill(ring: array<Handle>, start: nat, bhe: nat, from: nat, wanted: nat,
                ghost first: nat, ghost c: nat, ghost take: nat, ghost base: multiset<nat>)
      returns (bhb: nat, block: nat, left: nat, ghost p: nat)
      requires Valid() && ring.Length == NBUF && start == Place(take) && bhe == Place(c) && from == first + take
      requires Ring(ring[..], blocks, first, c, take) && take < c + NBUF
      requires held == base + Held(blocks, first + c, first + take)
      modifies ring, this`held
      ensures Ring(ring[..], blocks, first, c, p) && bhb == Place(p) && block == first + p
      ensures p >= take && p + left == take + wanted
      ensures held == base + Held(blocks, first + c, first + p)
      ensures wanted > 0 || take > c ==> p > c
    {
      hide Held, Ring, Place;
      RingSize(ring[..], blocks, first, c, take);
      bhb, block, left, p := start, from, wanted, take;
      var uptodate := true;
      while left > 0
        invariant Ring(ring[..], blocks, first, c, p) && bhb == Place(p) && block == first + p
        invariant p >= take && p + left == take + wanted
        invariant c <= p < c + NBUF && held == base + Held(blocks, first + c, first + p)
        invariant left < wanted ==> p > c
      {
        left := left - 1;
        var h := PutOne(ring, bhb, block, first, c, p, base);
        block := block + 1;
        if h.Buffer? {
          var ready: bool := *;
          if !ready {
            uptodate := false;
          }
        }
        NextPlace(p);
        p := p + 1;
        bhb := bhb + 1;
        if bhb == NBUF {
          bhb := 0;
        }
        if uptodate {
          break;
        }
        SamePlace(c, p);
        if bhb == bhe {
          break;
        }
      }
    }

    /** The part of one buffer, or hole, that is wanted goes to the caller. */
    method TakeOne(h: Handle, left: nat, offset: nat, pos: nat, got: seq<Byte>,
                   ghost b: nat, ghost to: nat, ghost base: multiset<nat>)
      returns (out: seq<Byte>, rest: nat)
      requires Valid() && h == HandleOf(blocks, b) && b < to && offset < blockSize && left > 0
      requires pos + |got| == Start(b, blockSize) + offset && got == Slice(blocks, blockSize, pos, |got|)
      requires held == base + Held(blocks, b, to)
      modifies this`held
      ensures out == Slice(blocks, blockSize, pos, |out|) && |out| + rest == |got| + left && rest < left
      ensures rest > 0 ==> pos + |out| == Start(b + 1, blockSize)
      ensures held == base + Held(blocks, b + 1, to)
    {
      hide Held, Slice, Content, Start;
      var chars := if left < blockSize - offset then left else blockSize - offset;
      rest := left - chars;
      Copied(blocks, blockSize, pos, got, b, offset, chars);
      StartNext(b, blockSize);
      if h.Buffer? {
        out := got + blocks[h.block][offset..offset + chars];
      } else {
        out := got + Zeros(chars);
      }
      GiveBack(h, b, to, base);
    }

    /** Copies out of the ring what has come in, one buffer at least, and gives the buffers back. */
    method Drain(ring: array<Handle>, bhb: nat, start: nat, skip: nat, pos: nat, wanted: nat, got: seq<Byte>,
                 ghost first: nat, ghost taken: nat, ghost p: nat, ghost base: multiset<nat>)
      returns (out: seq<Byte>, left: nat, bhe: nat, ghost c: nat)
      requires Valid() && ring.Length == NBUF && Ring(ring[..], blocks, first, taken, p) && taken < p
      requires bhb == Place(p) && start == Place(taken) && skip < blockSize && wanted > 0
      requires pos + |got| == Start(first + taken, blockSize) + skip && got == Slice(blocks, blockSize, pos, |got|)
      requires held == base + Held(blocks, first + taken, first + p)
      modifies this`held
      ensures Ring(ring[..], blocks, first, c, p) && taken < c <= p && bhe == Place(c)
      ensures out == Slice(blocks, blockSize, pos, |out|) && |out| + left == |got| + wanted && left < wanted
      ensures left > 0 ==> pos + |out| == Start(first + c, blockSize)
      ensures held == base + Held(blocks, first + c, first + p)
    {
      hide Held, Slice, Ring, Place, Content, Start, HandleOf;
      RingTake(ring[..], blocks, first, taken, p);
      assert ring[start] == ring[..][Place(taken)];
      RingSize(ring[..], blocks, first, taken, p);
      out, left := TakeOne(ring[start], wanted, skip, pos, got, first + taken, first + p, base);
      NextPlace(taken);
      bhe, c := if start + 1 == NBUF then 0 else start + 1, taken + 1;
      SamePlace(c, p);
      while left > 0 && bhe != bhb
        invariant taken < c <= p && Ring(ring[..], blocks, first, c, p) && bhe == Place(c)
        invariant bhe == bhb <==> c == p
        invariant out == Slice(blocks, blockSize, pos, |out|) && |out| + left == |got| + wanted && left < wanted
        invariant left > 0 ==> pos + |out| == Start(first + c, blockSize)
        invariant held == base + Held(blocks, first + c, first + p)
      {
        if ring[bhe].Buffer? {
          var locked: bool := *;
          if locked {
            break;
          }
        }
        RingTake(ring[..], blocks, first, c, p);
        assert ring[bhe] == ring[..][Place(c)];
        out, left := TakeOne(ring[bhe], left, 0, pos, out, first + c, first + p, base);
        NextPlace(c);
        bhe, c := if bhe + 1 == NBUF then 0 else bhe + 1, c + 1;
        SamePlace(c, p);
      }
    }

    /** Gives back the buffers that were only read ahead. */
    method ReleaseRest(ring: array<Handle>, bhb: nat, start: nat,
                       ghost first: nat, ghost taken: nat, ghost p: nat, ghost base: multiset<nat>)
      requires Valid() && ring.Length == NBUF && Ring(ring[..], blocks, first, taken, p) && p < taken + NBUF
      requires bhb == Place(p) && start == Place(taken)
      requires held == base + Held(blocks, first + taken, first + p)
      modifies this`held
      ensures held == base
    {
      hide Held, Ring, Place;
      RingSize(ring[..], blocks, first, taken, p);
      var bhe := start;
      ghost var c := taken;
      SamePlace(c, p);
      while bhe != bhb
        invariant taken <= c <= p && bhe == Place(c) && Ring(ring[..], blocks, first, c, p)
        invariant bhe == bhb <==> c == p
        invariant held == base + Held(blocks, first + c, first + p)
        decreases p - c
      {
        RingTake(ring[..], blocks, first, c, p);
        assert ring[bhe] == ring[..][Place(c)];
        GiveBack(ring[bhe], first + c, first + p, base);
        NextPlace(c);
        c := c + 1;
        bhe := if bhe + 1 == NBUF then 0 else bhe + 1;
        SamePlace(c, p);
      }
      HeldNone(blocks, first + p);
    }

    /** Reads at most count bytes from pos on: exactly the bytes of the file there, as far as it
        goes, and every buffer it took is given back once. */
    method Read(pos: nat, count: nat, readAhead: bool, ahead: nat) returns (out: seq<Byte>, newPos: nat)
      requires Valid()
      modifies this`held
      ensures out == Slice(blocks, blockSize, pos, |out|)
      ensures |out| <= count && (out == [] || pos + |out| <= size) && (|out| < count ==> pos + |out| >= size)
      ensures newPos == pos + |out| && held == old(held)
    {
      hide Held, Slice, BitAnd, Ring, Place, Pow2, Start;
      out, newPos := [], pos;
      SliceNone(blocks, blockSize, pos);
      var left: nat := if pos > size then 0 else size - pos;
      if left > count {
        left := count;
      }
      if left == 0 {
        return;
      }
      ghost var total := left;
      PosInBlock(pos, blockSize);
      MaskIsMod(pos, bits);
      var block: nat := pos / blockSize;
      ghost var first := block;
      var offset: nat := BitAnd(pos, blockSize - 1);
      ghost var skip := offset;
      var wanted := Plan(block, offset, left, readAhead, ahead);
      var ring := new Handle[NBUF](_ => Hole);
      var bhb, bhe := 0, 0;
      ghost var c, p, base := 0, 0, held;
      RingEmpty(ring[..], blocks, first);
      HeldNone(blocks, first);
      while left > 0
        invariant Ring(ring[..], blocks, first, c, p) && bhb == Place(p) && bhe == Place(c) && block == first + p
        invariant c <= p < c + NBUF && Start(p + wanted, blockSize) >= skip + total
        invariant held == base + Held(blocks, first + c, first + p)
        invariant out == Slice(blocks, blockSize, pos, |out|) && |out| + left == total
        invariant left > 0 ==> offset < blockSize && pos + |out| == Start(first + c, blockSize) + offset
        decreases left
      {
        MoreWanted(first, c, p, wanted, blockSize, skip, total, pos, |out|, offset);
        bhb, block, wanted, p := Fill(ring, bhb, bhe, block, wanted, first, c, p, base);
        RingSize(ring[..], blocks, first, c, p);
        out, left, bhe, c := Drain(ring, bhb, bhe, offset, pos, left, out, first, c, p, base);
        offset := 0;
        RingSize(ring[..], blocks, first, c, p);
      }
      ReleaseRest(ring, bhb, bhe, first, c, p, base);
      newPos := pos + |out|;
    }

    /** ext2_getblk with create: a hole becomes a block of zeros, if there is space. */
    method MakeBlock(b: nat) returns (ok: bool)
      requires Valid()
      modifies this`held, this`blocks
      ensures Valid()
      ensures ok ==> b in blocks && blocks == old(blocks)[b := Content(old(blocks), blockSize, b)]
      ensures ok ==> held == old(held) + multiset{b}
      ensures !ok ==> blocks == old(blocks) && held == old(held) && b !in blocks
    {
      if b !in blocks {
        var space: bool := *;
        if !space {
          return false;
        }
        blocks := blocks[b := Zeros(blockSize)];
      }
      held := held + multiset{b};
      ok := true;
    }

    /** Writes bytes into one block, which is made if it is a hole. */
    method WritePart(b: nat, o: nat, more: seq<Byte>) returns (ok: bool)
      requires Valid() && o + |more| <= blockSize
      modifies this`held, this`blocks
      ensures Valid() && held == old(held)
      ensures ok ==> Wrote(old(blocks), blocks, blockSize, Start(b, blockSize) + o, more)
      ensures ok ==> blocks.Keys == old(blocks).Keys + {b}
      ensures !ok ==> blocks == old(blocks) && b !in blocks
    {
      hide Content, ByteAt, Wrote;
      ok := MakeBlock(b);
      if ok {
        Release(Buffer(b));
        var bytes := blocks[b];
        OneBlockWritten(old(blocks), blockSize, b, o, more);
        blocks := blocks[b := bytes[..o] + more + bytes[o + |more|..]];
        assert blocks == old(blocks)[b := bytes[..o] + more + bytes[o + |more|..]];
      }
    }

    /** Writes bytes at pos, or at the end: exactly those bytes of the file change, holes in their
        place become blocks, and the file ends no earlier than what was written. A write stops short
        only where it meets a hole it cannot fill, or past 2 GB. */
    method Write(buf: seq<Byte>, pos: nat, append: bool) returns (written: nat, newPos: nat, full: bool)
      requires Valid()
      modifies this
      ensures Valid() && held == old(held)
      ensures var start := if append then old(size) else pos;
              && newPos == start + written && size == (if newPos > old(size) then newPos else old(size))
              && written <= |buf| && Wrote(old(blocks), blocks, blockSize, start, buf[..written])
      ensures written == |buf| || full || newPos > TWO_GB
      ensures full ==> written < |buf| && newPos / blockSize !in blocks
      ensures written > 0 ==> newPos <= TWO_GB + blockSize
      ensures forall b :: b in blocks <==> b in old(blocks) || Meets(b, blockSize, newPos - written, newPos)
    {
      hide Content, ByteAt, Slice, Wrote, Start;
      var start := if append then size else pos;
      var at := start;
      written, full := 0, false;
      WroteNothing(blocks, blockSize, start);
      assert buf[..0] == [];
      while written < |buf|
        invariant Valid() && held == old(held) && size == old(size)
        invariant written <= |buf| && at == start + written
        invariant Wrote(old(blocks), blocks, blockSize, start, buf[..written])
        invariant written > 0 ==> at <= TWO_GB + blockSize
        invariant !full && forall b :: b in blocks <==> b in old(blocks) || Meets(b, blockSize, start, at)
      {
        if at > TWO_GB {
          break;
        }
        PosInBlock(at, blockSize);
        var o: nat := at % blockSize;
        var c := blockSize - o;
        if c > |buf| - written {
          c := |buf| - written;
        }
        ghost var was := blocks;
        var more := buf[written..written + c];
        var ok := WritePart(at / blockSize, o, more);
        if !ok {
          full := true;
          break;
        }
        WroteMore(old(blocks), was, blocks, blockSize, start, buf[..written], more);
        assert buf[..written] + more == buf[..written + c];
        MeetsOne(at / blockSize, o, c, blockSize, start, at);
        at, written := at + c, written + c;
      }
      newPos := at;
      if newPos > size {
        size := newPos;
      }
    }
  }

  /** Block b has bytes from start up to end. */
  ghost predicate Meets(b: nat, blockSize: Pos, start: int, end: int) {
    start < end && Start(b, blockSize) < end && start < Start(b, blockSize) + blockSize
  }

  /** c bytes more, in block a from byte o of it on, meet that block and no other. */
  lemma MeetsOne(a: nat, o: nat, c: nat, blockSize: Pos, start: nat, at: nat)
    requires at == Start(a, blockSize) + o && 0 < c && o + c <= blockSize && start <= at
    ensures forall b: nat :: Meets(b, blockSize, start, at + c) <==> Meets(b, blockSize, start, at) || b == a
  {
    forall b: nat
      ensures Meets(b, blockSize, start, at + c) <==> Meets(b, blockSize, start, at) || b == a
    {
      if b != a {
        OtherBlock(a, 0, b, blockSize);
        OtherBlock(b, 0, a, blockSize);
      }
    }
  }

  /** The bytes from start on are the ones given, every other byte is as it was. */
  ghost predicate Wrote(was: Blocks, now: Blocks, blockSize: Pos, start: nat, bytes: seq<Byte>)
    requires WholeBlocks(was, blockSize) && WholeBlocks(now, blockSize)
  {
    forall p: nat {:trigger ByteAt(now, blockSize, p)} ::
      ByteAt(now, blockSize, p) == if start <= p < start + |bytes| then bytes[p - start] else ByteAt(was, blockSize, p)
  }

  lemma WroteNothing(blocks: Blocks, blockSize: Pos, start: nat)
    requires WholeBlocks(blocks, blockSize)
    ensures Wrote(blocks, blocks, blockSize, start, [])
  {
  }

  lemma WroteMore(was: Blocks, mid: Blocks, now: Blocks, blockSize: Pos, start: nat, bytes: seq<Byte>, more: seq<Byte>)
    requires WholeBlocks(was, blockSize) && WholeBlocks(mid, blockSize) && WholeBlocks(now, blockSize)
    requires Wrote(was, mid, blockSize, start, bytes) && Wrote(mid, now, blockSize, start + |bytes|, more)
    ensures Wrote(was, now, blockSize, start, bytes + more)
  {
    hide ByteAt;
    forall p: nat
      ensures ByteAt(now, blockSize, p)
              == if start <= p < start + |bytes + more| then (bytes + more)[p - start] else ByteAt(was, blockSize, p)
    {
      assert ByteAt(mid, blockSize, p) == ByteAt(mid, blockSize, p);
    }
  }

  /** A stretch of one block written over. */
  lemma OneBlockWritten(was: Blocks, blockSize: Pos, b: nat, o: nat, more: seq<Byte>)
    requires WholeBlocks(was, blockSize) && o + |more| <= blockSize
    ensures var bytes := Content(was, blockSize, b);
            var now := was[b := bytes[..o] + more + bytes[o + |more|..]];
            WholeBlocks(now, blockSize) && Wrote(was, now, blockSize, Start(b, blockSize) + o, more)
  {
    var bytes := Content(was, blockSize, b);
    var now := was[b := bytes[..o] + more + bytes[o + |more|..]];
    assert WholeBlocks(now, blockSize);
    var start := Start(b, blockSize) + o;
    forall p: nat
      ensures ByteAt(now, blockSize, p)
              == if start <= p < start + |more| then more[p - start] else ByteAt(was, blockSize, p)
    {
      PosInBlock(p, blockSize);
      if p / blockSize == b {
        assert now[b][p % blockSize] ==
               if o <= p % blockSize < o + |more| then more[p % blockSize - o] else bytes[p % blockSize];
      } else {
        OtherBlock(p / blockSize, p % blockSize, b, blockSize);
      }
    }
  }

  /** Bytes of another block lie before or after all of block b. */
  lemma OtherBlock(c: nat, r: nat, b: nat, blockSize: Pos)
    requires c != b && r < blockSize
    ensures Start(c, blockSize) + r < Start(b, blockSize) || Start(c, blockSize) + r >= Start(b, blockSize) + blockSize
  {
    MoreBlocks(c + 1, b, blockSize);
    MoreBlocks(b + 1, c, blockSize);
    assert (c + 1) * blockSize == c * blockSize + blockSize;
    assert (b + 1) * blockSize == b * blockSize + blockSize;
  }

  /** What was written is what a read of that range returns, and a read of any range that
      does not meet it returns what it did before. */
  lemma WrittenIsRead(was: Blocks, now: Blocks, blockSize: Pos, start: nat, bytes: seq<Byte>, p: nat, n: nat)
    requires WholeBlocks(was, blockSize) && WholeBlocks(now, blockSize)
    requires Wrote(was, now, blockSize, start, bytes)
    ensures Slice(now, blockSize, start, |bytes|) == bytes
    ensures p + n <= start || start + |bytes| <= p ==> Slice(now, blockSize, p, n) == Slice(was, blockSize, p, n)
  {
    hide ByteAt;
  }

  lemma CeilIs(n: nat, blockSize: Pos)
    requires n > 0
    ensures var m := (n + blockSize - 1) / blockSize; m > 0 && Start(m - 1, blockSize) < n <= Start(m, blockSize)
  {
    DivFits(n + blockSize - 1, blockSize);
    StartSum((n + blockSize - 1) / blockSize - 1, 1, blockSize);
  }

  lemma StartSum(m: int, n: int, blockSize: Pos)
    ensures (m + n) * blockSize == m * blockSize + n * blockSize
  {
  }

  lemma MoreBlocks(m: nat, n: nat, blockSize: Pos)
    ensures m <= n ==> m * blockSize <= n * blockSize
  {
    MulAtLeast(blockSize, n - m);
    assert n * blockSize == m * blockSize + blockSize * (n - m);
  }

  lemma RestOfFile(block: nat, blocks: nat, blockSize: Pos, n: nat)
    requires block * blockSize + n <= blocks * blockSize && n > 0
    ensures blocks >= block && (blocks - block) * blockSize >= n
  {
    if blocks < block {
      MoreBlocks(blocks, block, blockSize);
    }
    assert (blocks - block) * blockSize == blocks * blockSize - block * blockSize;
  }
}
