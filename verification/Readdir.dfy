/** ext2_readdir: a scan of a directory that stops and resumes while entries come and go. */
module Readdir {
  import opened Geometry
  import opened Records
  import Directory

  /** Putting an offset into the position of a block: below the block size it is addition; the
      block size itself is lost when the block number is odd. */
  lemma {:induction false} OrOffset(q: nat, k: nat, off: nat)
    requires off <= Pow2(k)
    ensures BitOr(q * Pow2(k), off) ==
            if off < Pow2(k) || q % 2 == 0 then q * Pow2(k) + off else q * Pow2(k)
    decreases k
  {
    hide BitOr;
    if k == 0 {
      OrOne(q);
    } else {
      var p := Pow2(k - 1);
      DoubleProduct(q, p);
      OrOffset(q, k - 1, off / 2);
      OrDouble(q * p, off);
      hide Pow2;
    }
  }

  lemma DoubleProduct(q: nat, p: nat)
    ensures q * (2 * p) == 2 * (q * p)
  {
  }

  lemma OrDouble(x: nat, y: nat)
    ensures BitOr(2 * x, y) == 2 * BitOr(x, y / 2) + y % 2
  {
  }

  lemma OrOne(q: nat)
    ensures BitOr(q, 1) == if q % 2 == 0 then q + 1 else q
    ensures BitOr(q, 0) == q
  {
    if q > 1 {
      assert BitOr(q / 2, 1 / 2) == q / 2;
    }
  }

  // ----- records by byte offset

  /** A record of b starts at byte off. */
  predicate StartsAt(b: seq<Rec>, off: nat) {
    b != [] && (off == 0 || (off >= b[0].len && StartsAt(b[1..], off - b[0].len)))
  }

  function RecAt(b: seq<Rec>, off: nat): Rec
    requires StartsAt(b, off)
  {
    if off == 0 then b[0] else RecAt(b[1..], off - b[0].len)
  }

  ghost predicate Long(b: seq<Rec>) {
    forall i | 0 <= i < |b| :: b[i].len > 0
  }

  lemma {:induction false} NextStart(b: seq<Rec>, off: nat)
    requires StartsAt(b, off) && Long(b)
    ensures off + RecAt(b, off).len <= Size(b)
    ensures off + RecAt(b, off).len == Size(b) || StartsAt(b, off + RecAt(b, off).len)
    ensures RecAt(b, off) in b
  {
    if off == 0 {
      if |b| == 1 {
        assert b[1..] == [];
      }
    } else {
      NextStart(b[1..], off - b[0].len);
    }
  }

  /** No record starts inside another. */
  lemma {:induction false} NoStartInside(b: seq<Rec>, off: nat, p: nat)
    requires StartsAt(b, off) && StartsAt(b, p) && off < p && Long(b)
    ensures p >= off + RecAt(b, off).len
  {
    if off > 0 {
      NoStartInside(b[1..], off - b[0].len, p - b[0].len);
    }
  }

  /** The live entries are the live records, by where they start. */
  lemma {:induction false} LiveStarts(b: seq<Rec>, base: nat, e: Entry)
    requires Long(b)
    ensures e in LiveFrom(b, base) <==>
            e.pos >= base && StartsAt(b, e.pos - base)
            && RecAt(b, e.pos - base).ino == e.ino != 0 && RecAt(b, e.pos - base).name == e.name
  {
    if b != [] {
      LiveStarts(b[1..], base + b[0].len, e);
      if e in LiveFrom(b[1..], base + b[0].len) {
        LiveBounds(b[1..], base + b[0].len, e);
      }
    }
  }

  // ----- positions in the file

  /** The scan may continue at byte pos: some record starts there, or the directory ends before. */
  ghost predicate Boundary(blocks: seq<Block>, blockSize: Pos, pos: nat) {
    pos / blockSize < |blocks| ==> StartsAt(blocks[pos / blockSize], pos % blockSize)
  }

  lemma BlockRange(blockSize: Pos, blk: nat, off: nat)
    requires off < blockSize
    ensures (blk * blockSize + off) / blockSize == blk && (blk * blockSize + off) % blockSize == off
  {
    DivModUnique(blk * blockSize + off, blockSize, blk, off);
  }

  /** The live entries that start in block blk are those of its records. */
  lemma LiveInBlock(blocks: seq<Block>, blockSize: nat, inodes: nat, blk: nat, e: Entry)
    requires Directory.AllTile(blocks, blockSize, inodes) && blk < |blocks|
    requires blk * blockSize <= e.pos < blk * blockSize + blockSize
    ensures e in Live(blocks) <==> e in LiveFrom(blocks[blk], blk * blockSize)
  {
    hide LiveFrom;
    Directory.AllSizes(blocks, blockSize, inodes);
    LiveAround(blocks, blockSize, blk);
    FlatSize(blocks[..blk], blockSize);
    Directory.FlatLens(blocks[..blk], blockSize, inodes);
    Directory.FlatLens(blocks[blk + 1..], blockSize, inodes);
    NotLive(Flat(blocks[..blk]), 0, e);
    NotLive(Flat(blocks[blk + 1..]), blk * blockSize + blockSize, e);
  }

  /** From the record at off on, the next record is where the next live entry can be. */
  lemma NothingBetween(blocks: seq<Block>, blockSize: Pos, inodes: nat, blk: nat, off: nat, e: Entry)
    requires Directory.AllTile(blocks, blockSize, inodes) && blk < |blocks| && StartsAt(blocks[blk], off)
    requires e in Live(blocks) && blk * blockSize + off <= e.pos < blk * blockSize + off + RecAt(blocks[blk], off).len
    ensures e.pos == blk * blockSize + off && RecAt(blocks[blk], off).ino == e.ino != 0 && RecAt(blocks[blk], off).name == e.name
  {
    hide LiveFrom;
    var b := blocks[blk];
    TileFacts(blocks, blockSize, inodes, blk);
    NextStart(b, off);
    LiveInBlock(blocks, blockSize, inodes, blk, e);
    LiveStarts(b, blk * blockSize, e);
    if e.pos - blk * blockSize > off {
      NoStartInside(b, off, e.pos - blk * blockSize);
    }
  }

  lemma TileFacts(blocks: seq<Block>, blockSize: nat, inodes: nat, blk: nat)
    requires Directory.AllTile(blocks, blockSize, inodes) && blk < |blocks|
    ensures Long(blocks[blk]) && Size(blocks[blk]) == blockSize && blocks[blk] != []
    ensures forall r | r in blocks[blk] :: Sound(r, inodes)
  {
    Directory.TilesLens(blocks[blk], blockSize, inodes);
    TilesSound(blocks[blk], blockSize, inodes);
  }

  /** A live record read at a boundary is a live entry. */
  lemma ReadIsLive(blocks: seq<Block>, blockSize: Pos, inodes: nat, blk: nat, off: nat)
    requires Directory.AllTile(blocks, blockSize, inodes) && blk < |blocks| && StartsAt(blocks[blk], off)
    requires RecAt(blocks[blk], off).ino != 0
    ensures Entry(blk * blockSize + off, RecAt(blocks[blk], off).name, RecAt(blocks[blk], off).ino) in Live(blocks)
  {
    hide LiveFrom;
    TileFacts(blocks, blockSize, inodes, blk);
    NextStart(blocks[blk], off);
    var e := Entry(blk * blockSize + off, RecAt(blocks[blk], off).name, RecAt(blocks[blk], off).ino);
    LiveStarts(blocks[blk], blk * blockSize, e);
    LiveInBlock(blocks, blockSize, inodes, blk, e);
  }

  /** Bytes of one listed name: a 10-byte header, the name and a zero, rounded up to 4. */
  function Listed(n: nat): nat {
    (10 + n + 1 + 3) / 4 * 4
  }

  /** Header, name and final zero fit, with less than four bytes to spare. */
  lemma ListedIs(n: nat)
    ensures n + 11 <= Listed(n) < n + 15 && Listed(n) % 4 == 0
  {
  }

  lemma ListedPositive(n: nat)
    ensures Listed(n) > 1
  {
  }

  lemma CoversNothing(live: set<Entry>, a: nat)
    ensures Covers(live, a, a, [])
  {
  }

  /** Everything live from byte a up to byte b is in the list. */
  ghost predicate Covers(live: set<Entry>, a: nat, b: nat, list: seq<Entry>) {
    forall e | e in live && a <= e.pos < b :: e in list
  }

  lemma CoversMore(live: set<Entry>, a: nat, b: nat, c: nat, list: seq<Entry>, more: seq<Entry>)
    requires Covers(live, a, b, list) && Covers(live, b, c, more)
    ensures Covers(live, a, c, list + more)
  {
    forall e | e in live && a <= e.pos < c
      ensures e in list + more
    {
      assert e in list || e in more;
    }
  }

  /** What can happen to a directory between two reads: a name added after a search (link, mkdir,
      rename) or without one (create), removed, replaced in place, or ".." corrected in place. */
  datatype Act =
    | ReadSome(count: nat)
    | Insert(name: string, ino: nat, room: bool)
    | Create(name: string, ino: nat, room: bool)
    | Remove(name: string)
    | Replace(name: string, ino: nat)
    | Reparent(ino: nat, parent: nat)

  /** The records of the directory, and where the scan is. */
  datatype State = State(blocks: seq<Block>, pos: nat)

  /** What does not change: geometry and case mode. */
  datatype Mode = Mode(blockSize: nat, inodes: nat, caseless: bool)

  /** Bytes of a list of names. */
  function Bytes(list: seq<Entry>): nat {
    if list == [] then 0 else Bytes(list[..|list| - 1]) + Listed(|list[|list| - 1].name|)
  }

  lemma BytesMore(list: seq<Entry>, more: seq<Entry>)
    requires |more| <= 1
    ensures Bytes(list + more) == Bytes(list) + if more == [] then 0 else Listed(|more[0].name|)
    ensures Bytes([] + more) == if more == [] then 0 else Listed(|more[0].name|)
  {
    if more != [] {
      assert (list + more)[..|list|] == list && ([] + more)[..0] == [];
    } else {
      assert list + more == list;
    }
  }

  /** Some name is too long for the room. */
  ghost predicate TooLong(live: set<Entry>, room: nat) {
    exists e :: e in live && Listed(|e.name|) > room
  }

  /** One read: it lists live entries, as many as there is room for, passes over none between the old
      and the new position, and gets on unless the next name is too long for the room. A room of 1
      stands for one entry. */
  ghost predicate Reads(live: set<Entry>, total: nat, room: nat, from: nat, list: seq<Entry>, pos: nat) {
    && (forall e | e in list :: e in live) && Covers(live, from, pos, list)
    && (room == 1 ==> |list| == 1 || (list == [] && pos >= total))
    && (room != 1 ==> Bytes(list) <= room)
    && (room > 1 && list == [] ==> pos >= total || TooLong(live, room))
  }

  /** The act leads from s to u and lists this. Only a read lists anything or moves the scan, and only
      the other acts change the records. */
  ghost predicate Follows(m: Mode, s: State, act: Act, list: seq<Entry>, u: State) {
    if act.ReadSome? then
      u.blocks == s.blocks && Reads(Live(s.blocks), |s.blocks| * m.blockSize, act.count, s.pos, list, u.pos)
    else list == [] && u.pos == s.pos && Changes(m, s.blocks, act, u.blocks)
  }

  ghost predicate Changes(m: Mode, was: seq<Block>, act: Act, now: seq<Block>)
    requires !act.ReadSome?
  {
    match act
    case Insert(name, ino, room) =>
      if 0 < ino <= m.inodes && Directory.Addable(was, name, m.caseless, room, true) then
        Directory.NameAdded(was, name, ino, m.caseless, now)
      else now == was
    case Create(name, ino, room) =>
      if 0 < ino <= m.inodes && Directory.Addable(was, name, m.caseless, room, false) then
        Directory.NameAdded(was, name, ino, m.caseless, now)
      else now == was
    case Remove(name) =>
      if Directory.Answer(was, name, m.caseless) != 0 then Directory.NameRemoved(was, name, m.caseless, now) else now == was
    case Replace(name, ino) =>
      if 0 < ino <= m.inodes && Directory.Answer(was, name, m.caseless) != 0 then
        Directory.NameReplaced(was, name, ino, m.caseless, now)
      else now == was
    case Reparent(ino, parent) =>
      if Directory.StartsWithDots(was, ino) && 0 < parent <= m.inodes then now == Directory.Reparented(was, parent) else now == was
  }

  /** Each act leads from one state to the next, with what it lists. */
  ghost predicate IsSession(m: Mode, acts: seq<Act>, lists: seq<seq<Entry>>, states: seq<State>) {
    && |lists| <= |acts| && |states| == |lists| + 1
    && forall n {:trigger lists[n]} | 0 <= n < |lists| :: Follows(m, states[n], acts[n], lists[n], states[n + 1])
  }

  /** The entry is live in every state. */
  ghost predicate Always(states: seq<State>, e: Entry) {
    forall n | 0 <= n < |states| :: e in Live(states[n].blocks)
  }

  /** The entry is in one of the lists. */
  ghost predicate Seen(lists: seq<seq<Entry>>, e: Entry) {
    exists n :: 0 <= n < |lists| && e in lists[n]
  }

  /** An entry that is live in every state of a session that starts at the beginning, and that the scan
      has gone past, has been listed. */
  lemma {:induction false} NothingMissed(m: Mode, acts: seq<Act>, lists: seq<seq<Entry>>, states: seq<State>, e: Entry)
    requires IsSession(m, acts, lists, states) && states[0].pos == 0
    requires Always(states, e) && e.pos < states[|lists|].pos
    ensures Seen(lists, e)
    decreases |lists|
  {
    hide Live, Changes, Bytes;
    if lists != [] {
      var n := |lists| - 1;
      assert Follows(m, states[n], acts[n], lists[n], states[n + 1]);
      if e.pos < states[n].pos {
        var fewer, before := lists[..n], states[..n + 1];
        assert IsSession(m, acts, fewer, before) by {
          forall i | 0 <= i < n
            ensures Follows(m, before[i], acts[i], fewer[i], before[i + 1])
          {
            assert lists[i] == fewer[i];
          }
        }
        NothingMissed(m, acts, fewer, before, e);
        var i :| 0 <= i < n && e in fewer[i];
        assert e in lists[i];
      } else {
        assert e in Live(states[n].blocks);
        assert e in lists[n];
      }
    }
  }

  /** Every live entry starts inside the directory. */
  lemma AllBelow(blocks: seq<Block>, blockSize: nat, inodes: nat)
    requires Directory.AllTile(blocks, blockSize, inodes)
    ensures forall e | e in Live(blocks) :: e.pos < |blocks| * blockSize
  {
    hide LiveFrom;
    Directory.AllSizes(blocks, blockSize, inodes);
    FlatSize(blocks, blockSize);
    Directory.FlatLens(blocks, blockSize, inodes);
    forall e | e in Live(blocks)
      ensures e.pos < |blocks| * blockSize
    {
      LiveBounds(Flat(blocks), 0, e);
    }
  }

  class Scan {
    const dir: Directory.Directory
    const bits: nat
    var pos: nat
    var version: nat

    /** The scan stands at a boundary unless its version stamp says it may not. */
    ghost predicate Valid()
      reads this, dir
    {
      && dir.Valid() && dir.blockSize == Pow2(bits) && dir.blockSize > 0
      && version <= dir.event && (version == dir.version ==> Boundary(dir.blocks, dir.blockSize, pos))
    }

    /** A newly opened scan gets a stamp no directory version has. */
    constructor (d: Directory.Directory, k: nat)
      requires d.Valid() && d.blockSize == Pow2(k)
      modifies d`event
      ensures Valid() && dir == d && pos == 0 && d.event == old(d.event) + 1
    {
      dir := d;
      bits := k;
      pos := 0;
      version := d.event + 1;
      new;
      d.event := d.event + 1;
    }

    function Total(): nat
      reads dir
    {
      |dir.blocks| * dir.blockSize
    }

    /** The first boundary of the block at or after offset. */
    method Revalidate(blk: nat, offset: nat) returns (i: nat)
      requires dir.Valid() && blk < |dir.blocks| && offset < dir.blockSize
      ensures offset <= i <= dir.blockSize && (i < dir.blockSize ==> StartsAt(dir.blocks[blk], i))
      ensures forall p: nat | StartsAt(dir.blocks[blk], p) && offset <= p < dir.blockSize :: p >= i
    {
      hide Directory.AllTile;
      ghost var b := dir.blocks[blk];
      TileFacts(dir.blocks, dir.blockSize, dir.inodes, blk);
      i := 0;
      while i < dir.blockSize && i < offset
        invariant i <= dir.blockSize && (i < dir.blockSize ==> StartsAt(b, i))
        invariant forall p: nat | StartsAt(b, p) && offset <= p < dir.blockSize :: p >= i
      {
        var de := RecAt(dir.blocks[blk], i);
        NextStart(b, i);
        forall p: nat | StartsAt(b, p) && offset <= p < dir.blockSize
          ensures p >= i + de.len
        {
          NoStartInside(b, i, p);
        }
        i := i + de.len;
      }
    }

    /** Reads records of one block from a boundary on, while there is room to list them. */
    method ReadBlock(blk: nat, start: nat, room: nat) returns (list: seq<Entry>, stored: nat, count: nat)
      requires Valid() && version == dir.version && blk < |dir.blocks| && room > 0
      requires start < dir.blockSize && StartsAt(dir.blocks[blk], start) && pos == blk * dir.blockSize + start
      modifies this`pos
      ensures Valid()
      ensures forall e | e in list :: e in Live(dir.blocks)
      ensures Covers(Live(dir.blocks), old(pos), pos, list)
      ensures count == 0 || (pos == blk * dir.blockSize + dir.blockSize && pos > old(pos))
      ensures stored == 0 ==> list == [] && (count == room || count == 0)
      ensures room == 1 ==> (|list| == 1 && count == 0) || (list == [] && stored == 0 && count == 1)
      ensures stored > 0 ==> list != []
      ensures room != 1 ==> Bytes(list) <= room
      ensures stored == 0 && count == 0 ==> TooLong(Live(dir.blocks), room)
    {
      hide LiveFrom, Directory.AllTile, StartsAt, RecAt, Covers, Listed, Live, Boundary, Size, Bytes;
      BytesMore([], []);
      stored, count, list := 0, room, [];
      CoversNothing(Live(dir.blocks), pos);
      var offset := start;
      ghost var b := dir.blocks[blk];
      TileFacts(dir.blocks, dir.blockSize, dir.inodes, blk);
      PosBoundary(dir.blocks, dir.blockSize, dir.inodes, blk, offset);
      while count > 0 && pos < |dir.blocks| * dir.blockSize && offset < dir.blockSize
        invariant old(pos) <= pos == blk * dir.blockSize + offset && offset <= dir.blockSize
        invariant offset < dir.blockSize ==> StartsAt(b, offset)
        invariant Boundary(dir.blocks, dir.blockSize, pos)
        invariant offset == start ==> list == []
        invariant forall e | e in list :: e in Live(dir.blocks)
        invariant Covers(Live(dir.blocks), old(pos), pos, list)
        invariant stored == 0 ==> list == [] && count == room
        invariant Bytes(list) == stored && (room != 1 ==> stored + count == room)
        invariant stored > 0 ==> list != []
        invariant stored > 0 && room == 1 ==> |list| == 1 && count == 0
        decreases dir.blockSize - offset
      {
        var de := RecAt(dir.blocks[blk], offset);
        NextStart(b, offset);
        var more: seq<Entry> := [];
        if de.ino != 0 {
          var dlen := Listed(|de.name|);
          ListedPositive(|de.name|);
          if count == 1 && stored == 0 {
            count := dlen;
          }
          ReadIsLive(dir.blocks, dir.blockSize, dir.inodes, blk, offset);
          if count < dlen {
            assert Entry(blk * dir.blockSize + offset, de.name, de.ino) in Live(dir.blocks);
            count := 0;
            break;
          }
          more := [Entry(blk * dir.blockSize + offset, de.name, de.ino)];
          stored, count := stored + dlen, count - dlen;
        }
        CoversRecord(dir.blocks, dir.blockSize, dir.inodes, blk, offset, old(pos), list, more);
        BytesMore(list, more);
        list := list + more;
        offset := offset + de.len;
        pos := pos + de.len;
        PosBoundary(dir.blocks, dir.blockSize, dir.inodes, blk, offset);
      }
      if offset < dir.blockSize {
        WithinTotal(|dir.blocks|, dir.blockSize, blk, offset);
      }
    }

    /** After a change of the directory: goes on at the first boundary. At the end of an odd
        block the position falls back to its start. */
    method Resume(blk: nat, offset: nat, ghost a: nat, ghost list: seq<Entry>) returns (next: nat)
      requires Valid() && blk < |dir.blocks| && offset < dir.blockSize && pos == blk * dir.blockSize + offset
      requires Covers(Live(dir.blocks), a, pos, list)
      modifies this
      ensures Valid() && version == dir.version && Covers(Live(dir.blocks), a, pos, list)
      ensures next <= dir.blockSize && (next < dir.blockSize ==> StartsAt(dir.blocks[blk], next))
      ensures pos == if next < dir.blockSize then blk * dir.blockSize + next
                     else (blk + (if blk % 2 == 0 then 1 else 0)) * dir.blockSize
    {
      hide LiveFrom, Directory.AllTile, StartsAt, RecAt, Covers, Live, Boundary, Size, BitOr, Pow2;
      next := Revalidate(blk, offset);
      OrOffset(blk, bits, next);
      Moved(dir.blocks, dir.blockSize, dir.inodes, blk, offset, next, a, pos, list);
      pos := BitOr(pos - offset, next);
      version := dir.version;
      PosBoundary(dir.blocks, dir.blockSize, dir.inodes, blk, next);
      if next == dir.blockSize {
        PosBoundary(dir.blocks, dir.blockSize, dir.inodes, blk, 0);
      }
    }

    /** Lists entries: those it lists are live, and none between the old and the new position is
        passed over. A count of 1 stands for room for one entry. */
    method ReadDir(room: nat) returns (list: seq<Entry>)
      requires Valid()
      modifies this
      ensures Valid()
      ensures forall e | e in list :: e in Live(dir.blocks)
      ensures Covers(Live(dir.blocks), old(pos), pos, list)
      ensures room == 1 ==> |list| == 1 || (list == [] && pos >= Total())
      ensures room != 1 ==> Bytes(list) <= room
      ensures room > 1 && list == [] ==> pos >= Total() || TooLong(Live(dir.blocks), room)
    {
      hide LiveFrom, Directory.AllTile, StartsAt, RecAt, Covers, Live, Boundary, Size, BitAnd, BitOr, Pow2, Bytes, Listed, TooLong;
      BytesMore([], []);
      var stored: nat, count: nat := 0, room;
      list := [];
      CoversNothing(Live(dir.blocks), pos);
      MaskIsMod(pos, bits);
      var offset := BitAnd(pos, dir.blockSize - 1);
      while count > 0 && stored == 0 && pos < |dir.blocks| * dir.blockSize
        invariant Valid()
        invariant stored == 0 ==> list == [] && (count == room || count == 0)
        invariant count > 0 ==> offset == pos % dir.blockSize
        invariant forall e | e in list :: e in Live(dir.blocks)
        invariant Covers(Live(dir.blocks), old(pos), pos, list)
        invariant room == 1 && (stored > 0 || count == 0) ==> |list| == 1
        invariant stored > 0 ==> list != []
        invariant room != 1 ==> Bytes(list) <= room
        invariant stored == 0 && count == 0 && room > 0 ==> TooLong(Live(dir.blocks), room)
        decreases if stored == 0 && count > 0 then 1 else 0, if version == dir.version then 0 else 1, Total() - pos
      {
        BlockBelow(pos, dir.blockSize, |dir.blocks|);
        var blk: nat := pos / dir.blockSize;
        assert pos == blk * dir.blockSize + offset;
        if version != dir.version {
          offset := Resume(blk, offset, old(pos), list);
        } else {
          BoundaryStarts(dir.blocks, dir.blockSize, blk, offset);
        }
        if offset < dir.blockSize {
          ghost var from := pos;
          var more;
          more, stored, count := ReadBlock(blk, offset, count);
          CoversMore(Live(dir.blocks), old(pos), from, pos, list, more);
          assert list + more == more;
          list := list + more;
        }
        offset := 0;
        WholeBlocks(blk, dir.blockSize);
      }
    }

    ghost function Now(): State
      reads this, dir
    {
      State(dir.blocks, pos)
    }

    ghost function Fixed(): Mode {
      Mode(dir.blockSize, dir.inodes, dir.caseless)
    }

    /** One act; what it lists, and what it makes of records and position. */
    method Serve(act: Act) returns (list: seq<Entry>)
      requires Valid()
      modifies this, dir
      ensures Valid() && Follows(Fixed(), old(Now()), act, list, Now())
    {
      hide LiveFrom, Live, Directory.AllTile, Boundary, Covers, Bytes, Listed, Directory.Bound, Directory.Unique, Directory.Answer,
           Directory.NameAdded, Directory.NameRemoved, Directory.Renumbered, Directory.MatchFirst, Directory.Addable,
           Directory.Names, Directory.Fold;
      list := [];
      match act {
        case ReadSome(count) =>
          list := ReadDir(count);
        case Insert(name, ino, room) =>
          if 0 < ino <= dir.inodes {
            var s := dir.Insert(name, ino, room);
          }
        case Create(name, ino, room) =>
          if 0 < ino <= dir.inodes {
            var s := dir.Create(name, ino, room);
          }
        case Remove(name) =>
          var s, e := dir.Remove(name);
        case Replace(name, ino) =>
          if 0 < ino <= dir.inodes {
            var s, spelled := dir.Replace(name, ino);
          }
        case Reparent(ino, parent) =>
          if Directory.StartsWithDots(dir.blocks, ino) && 0 < parent <= dir.inodes {
            ghost var was := dir.blocks;
            dir.Reparent(ino, parent);
            BoundaryAfter(dir, was, parent, pos);
          }
      }
    }

    /** A whole scan with names added, removed and rebound in between, with one list for each act and
        the states it goes through. An entry that is live in every one of them is in some list once
        the scan is at the end. */
    method Session(acts: seq<Act>) returns (lists: seq<seq<Entry>>, ghost states: seq<State>)
      requires Valid() && pos == 0
      modifies this, dir
      ensures Valid() && |lists| == |acts| && IsSession(Fixed(), acts, lists, states)
      ensures states[0] == old(Now()) && states[|acts|] == Now()
      ensures pos >= Total() ==> forall e | Always(states, e) :: Seen(lists, e)
    {
      hide LiveFrom, Live, Directory.AllTile, Boundary, Follows, Always, Seen;
      lists, states := [], [Now()];
      for n := 0 to |acts|
        invariant Valid() && |lists| == n && IsSession(Fixed(), acts, lists, states)
        invariant states[0] == old(Now()) && states[n] == Now()
      {
        var list := Serve(acts[n]);
        lists, states := lists + [list], states + [Now()];
      }
      AllBelow(dir.blocks, dir.blockSize, dir.inodes);
      forall e | Always(states, e) && pos >= Total()
        ensures Seen(lists, e)
      {
        AlwaysLast(states, e);
        NothingMissed(Fixed(), acts, lists, states, e);
      }
    }
  }

  lemma AlwaysLast(states: seq<State>, e: Entry)
    requires states != [] && Always(states, e)
    ensures e in Live(states[|states| - 1].blocks)
  {
  }

  /** Records keep their places when one gets another number. */
  lemma BoundaryAfter(dir: Directory.Directory, was: seq<Block>, parent: nat, pos: nat)
    requires |was| > 0 && |was[0]| >= 2 && dir.blocks == Directory.Reparented(was, parent) && dir.blockSize > 0
    ensures Boundary(was, dir.blockSize, pos) <==> Boundary(dir.blocks, dir.blockSize, pos)
  {
    var b := was[0];
    var c := b[1 := b[1].(ino := parent)];
    assert b == [b[0]] + b[1..] && c == [b[0]] + c[1..] && c[1..][1..] == b[1..][1..];
    forall off: nat
      ensures StartsAt(b, off) <==> StartsAt(c, off)
    {
    }
  }

  lemma BoundaryStarts(blocks: seq<Block>, blockSize: Pos, blk: nat, offset: nat)
    requires blk < |blocks| && offset < blockSize && Boundary(blocks, blockSize, blk * blockSize + offset)
    ensures StartsAt(blocks[blk], offset)
  {
    BlockRange(blockSize, blk, offset);
  }

  lemma WithinTotal(n: nat, blockSize: nat, blk: nat, offset: nat)
    requires blk < n && offset < blockSize
    ensures blk * blockSize + offset < n * blockSize
  {
    MulAtLeast(blockSize, n - blk);
    assert n * blockSize == blk * blockSize + blockSize * (n - blk);
  }

  lemma MoreBlocks(m: nat, n: nat, blockSize: nat)
    requires m <= n
    ensures m * blockSize <= n * blockSize
  {
    MulAtLeast(blockSize, n - m);
    assert n * blockSize == m * blockSize + blockSize * (n - m);
  }

  lemma WholeBlocks(blk: nat, blockSize: Pos)
    ensures (blk * blockSize) % blockSize == 0 && ((blk + 0) * blockSize) % blockSize == 0
    ensures (blk * blockSize + blockSize) % blockSize == 0 && ((blk + 1) * blockSize) % blockSize == 0
  {
    BlockRange(blockSize, blk, 0);
    BlockRange(blockSize, blk + 1, 0);
    assert (blk + 1) * blockSize == blk * blockSize + blockSize;
  }

  lemma BlockBelow(pos: nat, blockSize: Pos, n: nat)
    requires pos < n * blockSize
    ensures 0 <= pos / blockSize < n && pos == pos / blockSize * blockSize + pos % blockSize && 0 <= pos % blockSize < blockSize
  {
    if pos / blockSize >= n {
      MoreBlocks(n, pos / blockSize, blockSize);
    }
  }

  /** Byte offset of block blk is a boundary if a record starts there or the block ends there. */
  lemma PosBoundary(blocks: seq<Block>, blockSize: Pos, inodes: nat, blk: nat, offset: nat)
    requires Directory.AllTile(blocks, blockSize, inodes) && blk < |blocks|
    requires offset <= blockSize && (0 < offset < blockSize ==> StartsAt(blocks[blk], offset))
    ensures Boundary(blocks, blockSize, blk * blockSize + offset)
  {
    if offset < blockSize {
      BlockRange(blockSize, blk, offset);
      TileFacts(blocks, blockSize, inodes, blk);
    } else {
      BlockRange(blockSize, blk + 1, 0);
      if blk + 1 < |blocks| {
        TileFacts(blocks, blockSize, inodes, blk + 1);
      }
    }
  }

  lemma CoversRecord(blocks: seq<Block>, blockSize: Pos, inodes: nat, blk: nat, offset: nat, a: nat, list: seq<Entry>, more: seq<Entry>)
    requires Directory.AllTile(blocks, blockSize, inodes) && blk < |blocks| && StartsAt(blocks[blk], offset)
    requires Covers(Live(blocks), a, blk * blockSize + offset, list)
    requires var de := RecAt(blocks[blk], offset);
             more == if de.ino != 0 then [Entry(blk * blockSize + offset, de.name, de.ino)] else []
    ensures Covers(Live(blocks), a, blk * blockSize + offset + RecAt(blocks[blk], offset).len, list + more)
  {
    var b := blk * blockSize + offset;
    forall e | e in Live(blocks) && b <= e.pos < b + RecAt(blocks[blk], offset).len
      ensures e in more
    {
      NothingBetween(blocks, blockSize, inodes, blk, offset, e);
    }
    CoversMore(Live(blocks), a, b, b + RecAt(blocks[blk], offset).len, list, more);
  }

  /** Going on at the first boundary at or after offset passes over nothing. */
  lemma Moved(blocks: seq<Block>, blockSize: Pos, inodes: nat, blk: nat, offset: nat, next: nat, a: nat, pos: nat, list: seq<Entry>)
    requires Directory.AllTile(blocks, blockSize, inodes) && blk < |blocks|
    requires offset < blockSize && offset <= next <= blockSize && pos == blk * blockSize + offset
    requires forall p: nat | StartsAt(blocks[blk], p) && offset <= p < blockSize :: p >= next
    requires Covers(Live(blocks), a, pos, list)
    ensures Covers(Live(blocks), a, blk * blockSize + next, list) && Covers(Live(blocks), a, blk * blockSize, list)
  {
    hide LiveFrom;
    TileFacts(blocks, blockSize, inodes, blk);
    forall e | e in Live(blocks) && a <= e.pos < blk * blockSize + next
      ensures e in list
    {
      if e.pos >= pos {
        LiveInBlock(blocks, blockSize, inodes, blk, e);
        LiveStarts(blocks[blk], blk * blockSize, e);
      }
    }
  }
}
