/** Directory blocks as the variable-length records that tile them, and what they bind. */
module Records {

  const NAME_LEN: nat := 255
  const MIN_LEN: nat := 12

  /** One record: inode number (0 when free), its length in bytes, the name it holds. */
  datatype Rec = Rec(ino: nat, len: nat, name: string)

  type Block = seq<Rec>

  /** A live record, by where it starts. */
  datatype Entry = Entry(pos: nat, name: string, ino: nat)

  /** Bytes a record needs for a name of n characters: 8 for the header, rounded up to 4. */
  function RecLen(n: nat): nat {
    (n + 8 + 3) / 4 * 4
  }

  /** Header and name fit, with less than four bytes to spare. */
  lemma RecLenIs(n: nat)
    ensures n + 8 <= RecLen(n) < n + 12 && RecLen(n) % 4 == 0
  {
  }

  /** ext2_check_dir_entry for record r at offset off of a block. */
  predicate CheckEntry(r: Rec, off: nat, blockSize: nat, inodes: nat) {
    && r.len >= MIN_LEN && r.len % 4 == 0 && r.len >= RecLen(|r.name|)
    && off + r.len <= blockSize && r.ino <= inodes
  }

  function Size(b: seq<Rec>): nat {
    if b == [] then 0 else b[0].len + Size(b[1..])
  }

  /** The records of one block: each passes the check, live ones have a name, and together they
      fill the block. */
  ghost predicate Tiles(b: Block, blockSize: nat, inodes: nat) {
    && b != [] && Size(b) == blockSize
    && forall i | 0 <= i < |b| ::
         CheckEntry(b[i], Size(b[..i]), blockSize, inodes) && (b[i].ino != 0 ==> b[i].name != "")
  }

  function Flat(blocks: seq<Block>): seq<Rec> {
    if blocks == [] then [] else blocks[0] + Flat(blocks[1..])
  }

  /** The live records of b, where b starts at base. */
  function LiveFrom(b: seq<Rec>, base: nat): set<Entry> {
    if b == [] then {}
    else (if b[0].ino != 0 then {Entry(base, b[0].name, b[0].ino)} else {}) + LiveFrom(b[1..], base + b[0].len)
  }

  /** Every live record of the directory, by its byte offset in the file. */
  function Live(blocks: seq<Block>): set<Entry> {
    LiveFrom(Flat(blocks), 0)
  }

  // ----- sequences of records

  lemma {:induction false} SizeConcat(p: seq<Rec>, q: seq<Rec>)
    ensures Size(p + q) == Size(p) + Size(q)
  {
    if p == [] {
      assert p + q == q;
    } else {
      assert (p + q)[1..] == p[1..] + q;
      SizeConcat(p[1..], q);
    }
  }

  lemma {:induction false} LiveConcat(p: seq<Rec>, q: seq<Rec>, base: nat)
    ensures LiveFrom(p + q, base) == LiveFrom(p, base) + LiveFrom(q, base + Size(p))
  {
    if p == [] {
      assert p + q == q;
    } else {
      assert (p + q)[1..] == p[1..] + q;
      LiveConcat(p[1..], q, base + p[0].len);
    }
  }

  /** Live records start inside the stretch they are read from. */
  lemma {:induction false} LiveBounds(b: seq<Rec>, base: nat, e: Entry)
    requires e in LiveFrom(b, base) && forall i | 0 <= i < |b| :: b[i].len > 0
    ensures base <= e.pos < base + Size(b) && e.ino != 0
  {
    if e in LiveFrom(b[1..], base + b[0].len) {
      LiveBounds(b[1..], base + b[0].len, e);
    }
  }

  /** Every live record is one of the records, at its offset. */
  lemma {:induction false} LiveIndex(b: seq<Rec>, base: nat, e: Entry) returns (i: nat)
    requires e in LiveFrom(b, base)
    ensures i < |b| && b[i].ino != 0 && e == Entry(base + Size(b[..i]), b[i].name, b[i].ino)
  {
    if b[0].ino != 0 && e == Entry(base, b[0].name, b[0].ino) {
      i := 0;
    } else {
      var j := LiveIndex(b[1..], base + b[0].len, e);
      i := j + 1;
      assert b[..i][1..] == b[1..][..j];
    }
  }

  lemma LiveAt(b: seq<Rec>, base: nat, i: nat)
    requires i < |b| && b[i].ino != 0
    ensures Entry(base + Size(b[..i]), b[i].name, b[i].ino) in LiveFrom(b, base)
  {
    assert b == b[..i] + b[i..];
    LiveConcat(b[..i], b[i..], base);
  }

  lemma {:induction false} FlatConcat(p: seq<Block>, q: seq<Block>)
    ensures Flat(p + q) == Flat(p) + Flat(q)
  {
    if p == [] {
      assert p + q == q;
    } else {
      assert (p + q)[1..] == p[1..] + q;
      FlatConcat(p[1..], q);
    }
  }

  /** The flat list around block k. */
  lemma FlatAround(blocks: seq<Block>, k: nat)
    requires k < |blocks|
    ensures Flat(blocks) == Flat(blocks[..k]) + blocks[k] + Flat(blocks[k + 1..])
  {
    assert blocks == blocks[..k] + blocks[k..];
    FlatConcat(blocks[..k], blocks[k..]);
    assert blocks[k..][1..] == blocks[k + 1..];
  }

  /** Blocks that tile: block k starts at k blocks' worth of bytes. */
  lemma {:induction false} FlatSize(blocks: seq<Block>, blockSize: nat)
    requires forall k | 0 <= k < |blocks| :: Size(blocks[k]) == blockSize
    ensures Size(Flat(blocks)) == |blocks| * blockSize
  {
    if blocks != [] {
      SizeConcat(blocks[0], Flat(blocks[1..]));
      FlatSize(blocks[1..], blockSize);
      assert |blocks| * blockSize == (|blocks| - 1) * blockSize + blockSize;
    }
  }

  /** The live records before, in and after block k. */
  lemma LiveAround(blocks: seq<Block>, blockSize: nat, k: nat)
    requires k < |blocks| && forall j | 0 <= j < |blocks| :: Size(blocks[j]) == blockSize
    ensures Live(blocks) == LiveFrom(Flat(blocks[..k]), 0) + LiveFrom(blocks[k], k * blockSize)
                            + LiveFrom(Flat(blocks[k + 1..]), k * blockSize + blockSize)
  {
    hide LiveFrom;
    FlatAround(blocks, k);
    FlatSize(blocks[..k], blockSize);
    LiveConcat(Flat(blocks[..k]) + blocks[k], Flat(blocks[k + 1..]), 0);
    LiveConcat(Flat(blocks[..k]), blocks[k], 0);
    SizeConcat(Flat(blocks[..k]), blocks[k]);
  }

  /** Block k replaced by one of the same size: only its own live records differ. */
  lemma LiveReplaced(blocks: seq<Block>, blockSize: nat, k: nat, b: Block)
    requires k < |blocks| && (forall j | 0 <= j < |blocks| :: Size(blocks[j]) == blockSize) && Size(b) == blockSize
    ensures var before, after := LiveFrom(Flat(blocks[..k]), 0), LiveFrom(Flat(blocks[k + 1..]), k * blockSize + blockSize);
            && Live(blocks) == before + LiveFrom(blocks[k], k * blockSize) + after
            && Live(blocks[k := b]) == before + LiveFrom(b, k * blockSize) + after
  {
    hide Size, LiveFrom, Flat;
    LiveAround(blocks, blockSize, k);
    LiveAround(blocks[k := b], blockSize, k);
    assert blocks[k := b][..k] == blocks[..k] && blocks[k := b][k + 1..] == blocks[k + 1..];
  }

  // ----- the three changes to one block

  /** The record at i gives up what its name does not need. */
  function Split(b: Block, i: nat, name: string): Block
    requires i < |b| && b[i].len >= RecLen(|b[i].name|)
  {
    var used := RecLen(|b[i].name|);
    b[..i] + [b[i].(len := used), Rec(0, b[i].len - used, name)] + b[i + 1..]
  }

  /** The record at i is merged into the one before it; the first record is only freed. */
  function Merge(b: Block, i: nat): Block
    requires i < |b|
  {
    if i == 0 then b[0 := b[0].(ino := 0)]
    else b[..i - 1] + [b[i - 1].(len := b[i - 1].len + b[i].len)] + b[i + 1..]
  }

  /** The middle of a block changes and keeps its size. */
  lemma Middle(p: seq<Rec>, m: seq<Rec>, n: seq<Rec>, q: seq<Rec>, base: nat)
    requires Size(m) == Size(n)
    ensures Size(p + m + q) == Size(p + n + q)
    ensures LiveFrom(p + m + q, base) == LiveFrom(p, base) + LiveFrom(m, base + Size(p)) + LiveFrom(q, base + Size(p) + Size(m))
    ensures LiveFrom(p + n + q, base) == LiveFrom(p, base) + LiveFrom(n, base + Size(p)) + LiveFrom(q, base + Size(p) + Size(m))
  {
    hide Size, LiveFrom;
    SizeConcat(p + m, q);
    SizeConcat(p + n, q);
    SizeConcat(p, m);
    SizeConcat(p, n);
    LiveConcat(p + m, q, base);
    LiveConcat(p + n, q, base);
    LiveConcat(p, m, base);
    LiveConcat(p, n, base);
  }

  lemma OneRecord(r: Rec, base: nat)
    ensures Size([r]) == r.len
    ensures LiveFrom([r], base) == if r.ino != 0 then {Entry(base, r.name, r.ino)} else {}
  {
    assert [r][1..] == [];
  }

  lemma TwoRecords(r: Rec, s: Rec, base: nat)
    ensures Size([r, s]) == r.len + s.len
    ensures LiveFrom([r, s], base) == LiveFrom([r], base) + LiveFrom([s], base + r.len)
  {
    assert [r, s] == [r] + [s];
    SizeConcat([r], [s]);
    LiveConcat([r], [s], base);
    OneRecord(r, base);
    OneRecord(s, base + r.len);
  }

  lemma SplitLive(b: Block, i: nat, name: string, base: nat)
    requires i < |b| && b[i].len >= RecLen(|b[i].name|)
    ensures Size(Split(b, i, name)) == Size(b) && LiveFrom(Split(b, i, name), base) == LiveFrom(b, base)
  {
    var used := RecLen(|b[i].name|);
    var r, s := b[i].(len := used), Rec(0, b[i].len - used, name);
    assert b == b[..i] + [b[i]] + b[i + 1..];
    OneRecord(b[i], base + Size(b[..i]));
    OneRecord(r, base + Size(b[..i]));
    OneRecord(s, base + Size(b[..i]) + used);
    TwoRecords(r, s, base + Size(b[..i]));
    Middle(b[..i], [b[i]], [r, s], b[i + 1..], base);
  }

  lemma MergeLive(b: Block, i: nat, base: nat)
    requires i < |b| && b[i].ino != 0 && forall j | 0 <= j < |b| :: b[j].len > 0
    ensures Size(Merge(b, i)) == Size(b)
    ensures var e := Entry(base + Size(b[..i]), b[i].name, b[i].ino);
            e in LiveFrom(b, base) && LiveFrom(Merge(b, i), base) == LiveFrom(b, base) - {e}
  {
    hide Size, LiveFrom;
    LiveAt(b, base, i);
    if i == 0 {
      EmptySize(b);
      assert b == [b[0]] + b[1..] && Merge(b, 0) == [b[0].(ino := 0)] + b[1..];
      FreeFirst(b[0], b[1..], base);
    } else {
      assert b[..i] == b[..i - 1] + [b[i - 1]];
      OneRecord(b[i - 1], 0);
      SizeConcat(b[..i - 1], [b[i - 1]]);
      assert b == b[..i - 1] + [b[i - 1], b[i]] + b[i + 1..];
      MergeTwo(b[..i - 1], b[i - 1], b[i], b[i + 1..], base);
    }
  }

  lemma EmptySize(b: seq<Rec>)
    ensures Size(b[..0]) == 0
  {
  }

  lemma Front(r: Rec, q: seq<Rec>, base: nat)
    ensures Size([r] + q) == r.len + Size(q)
    ensures LiveFrom([r] + q, base)
            == (if r.ino != 0 then {Entry(base, r.name, r.ino)} else {}) + LiveFrom(q, base + r.len)
  {
    assert ([r] + q)[1..] == q;
  }

  lemma FreeFirst(r: Rec, q: seq<Rec>, base: nat)
    requires r.ino != 0 && r.len > 0 && forall j | 0 <= j < |q| :: q[j].len > 0
    ensures var m := [r.(ino := 0)];
            && Size(m + q) == Size([r] + q)
            && LiveFrom(m + q, base) == LiveFrom([r] + q, base) - {Entry(base, r.name, r.ino)}
  {
    hide Size, LiveFrom;
    Front(r, q, base);
    Front(r.(ino := 0), q, base);
    NotLive(q, base + r.len, Entry(base, r.name, r.ino));
  }

  lemma MergeTwo(p: seq<Rec>, r: Rec, s: Rec, q: seq<Rec>, base: nat)
    requires s.ino != 0 && r.len > 0 && s.len > 0
    requires (forall j | 0 <= j < |p| :: p[j].len > 0) && (forall j | 0 <= j < |q| :: q[j].len > 0)
    ensures var m := [r.(len := r.len + s.len)];
            && Size(p + m + q) == Size(p + [r, s] + q)
            && LiveFrom(p + m + q, base) == LiveFrom(p + [r, s] + q, base) - {Entry(base + Size(p) + r.len, s.name, s.ino)}
  {
    hide LiveFrom, Size;
    var m := r.(len := r.len + s.len);
    var at := base + Size(p);
    OneRecord(r, at);
    OneRecord(s, at + r.len);
    OneRecord(m, at);
    TwoRecords(r, s, at);
    Middle(p, [r, s], [m], q, base);
    var e := Entry(at + r.len, s.name, s.ino);
    NotLive(p, base, e);
    NotLive(q, base + Size(p) + Size([r, s]), e);
  }

  /** A record that starts outside a stretch is not among its live records. */
  lemma NotLive(b: seq<Rec>, base: nat, e: Entry)
    requires (forall j | 0 <= j < |b| :: b[j].len > 0) && !(base <= e.pos < base + Size(b))
    ensures e !in LiveFrom(b, base)
  {
    if e in LiveFrom(b, base) {
      LiveBounds(b, base, e);
    }
  }

  lemma BindLive(b: Block, i: nat, name: string, ino: nat, base: nat)
    requires i < |b| && b[i].ino == 0
    ensures var c := b[i := b[i].(name := name, ino := ino)];
            && Size(c) == Size(b)
            && LiveFrom(c, base) == LiveFrom(b, base) + (if ino != 0 then {Entry(base + Size(b[..i]), name, ino)} else {})
  {
    var r := b[i].(name := name, ino := ino);
    assert b == b[..i] + [b[i]] + b[i + 1..];
    assert b[i := r] == b[..i] + [r] + b[i + 1..];
    OneRecord(b[i], base + Size(b[..i]));
    OneRecord(r, base + Size(b[..i]));
    Middle(b[..i], [b[i]], [r], b[i + 1..], base);
  }

  /** A live record gets another inode number in place: the entry there changes, and only that. */
  lemma RenumberLive(b: Block, i: nat, ino: nat, base: nat)
    requires i < |b| && b[i].ino != 0 && ino != 0
    ensures var c, free, pos := b[i := b[i].(ino := ino)], b[i := b[i].(ino := 0)], base + Size(b[..i]);
            && Size(c) == Size(b)
            && LiveFrom(b, base) == LiveFrom(free, base) + {Entry(pos, b[i].name, b[i].ino)}
            && LiveFrom(c, base) == LiveFrom(free, base) + {Entry(pos, b[i].name, ino)}
  {
    hide LiveFrom, Size;
    var free := b[i := b[i].(ino := 0)];
    assert free[..i] == b[..i];
    BindLive(free, i, b[i].name, b[i].ino, base);
    BindLive(free, i, b[i].name, ino, base);
    assert free[i := b[i]] == b && free[i := b[i].(ino := ino)] == b[i := b[i].(ino := ino)];
  }

  lemma RenumberTiles(b: Block, i: nat, ino: nat, blockSize: nat, inodes: nat)
    requires Tiles(b, blockSize, inodes) && i < |b| && b[i].ino != 0 && 0 < ino <= inodes
    ensures Tiles(b[i := b[i].(ino := ino)], blockSize, inodes)
  {
    hide LiveFrom, Size, Tiles;
    TilesSound(b, blockSize, inodes);
    RenumberLive(b, i, ino, 0);
    TilesIf(b[i := b[i].(ino := ino)], blockSize, inodes);
  }

  /** What is left of the check once the records are known to fill the block. */
  predicate Sound(r: Rec, inodes: nat) {
    && r.len >= MIN_LEN && r.len % 4 == 0 && r.len >= RecLen(|r.name|) && r.ino <= inodes
    && (r.ino != 0 ==> r.name != "")
  }

  lemma TilesIf(b: Block, blockSize: nat, inodes: nat)
    requires b != [] && Size(b) == blockSize && forall i | 0 <= i < |b| :: Sound(b[i], inodes)
    ensures Tiles(b, blockSize, inodes)
  {
    forall i | 0 <= i < |b|
      ensures Size(b[..i]) + b[i].len <= blockSize
    {
      assert b == b[..i] + b[i..];
      SizeConcat(b[..i], b[i..]);
    }
  }

  lemma TilesSound(b: Block, blockSize: nat, inodes: nat)
    requires Tiles(b, blockSize, inodes)
    ensures b != [] && Size(b) == blockSize && forall i | 0 <= i < |b| :: Sound(b[i], inodes)
  {
  }

  lemma RecLenFour(n: nat)
    ensures RecLen(n) % 4 == 0 && RecLen(n) >= 8 && (n > 0 ==> RecLen(n) >= MIN_LEN)
  {
  }

  lemma SplitTiles(b: Block, i: nat, name: string, blockSize: nat, inodes: nat)
    requires Tiles(b, blockSize, inodes) && i < |b| && b[i].ino != 0
    requires b[i].len >= RecLen(|b[i].name|) + RecLen(|name|) && name != ""
    ensures Tiles(Split(b, i, name), blockSize, inodes)
  {
    hide LiveFrom, Size, Tiles, RecLen;
    TilesSound(b, blockSize, inodes);
    SplitLive(b, i, name, 0);
    RecLenFour(|b[i].name|);
    RecLenFour(|name|);
    var c := Split(b, i, name);
    forall j | 0 <= j < |c|
      ensures Sound(c[j], inodes)
    {
      if j > i + 1 {
        assert c[j] == b[j - 1];
      }
    }
    TilesIf(c, blockSize, inodes);
  }

  lemma MergeTiles(b: Block, i: nat, blockSize: nat, inodes: nat)
    requires Tiles(b, blockSize, inodes) && i < |b| && b[i].ino != 0
    ensures Tiles(Merge(b, i), blockSize, inodes)
  {
    hide LiveFrom, Size, Tiles;
    TilesSound(b, blockSize, inodes);
    MergeLive(b, i, 0);
    var c := Merge(b, i);
    if i > 0 {
      MergedSound(b[i - 1], b[i], inodes);
    } else {
      FreedSound(b[0], inodes);
    }
    hide Sound;
    forall j | 0 <= j < |c|
      ensures Sound(c[j], inodes)
    {
      if j >= i && i > 0 {
        assert c[j] == b[j + 1];
      }
    }
    TilesIf(c, blockSize, inodes);
  }

  lemma MergedSound(a: Rec, b: Rec, inodes: nat)
    requires Sound(a, inodes) && Sound(b, inodes)
    ensures Sound(a.(len := a.len + b.len), inodes)
  {
  }

  lemma FreedSound(a: Rec, inodes: nat)
    requires Sound(a, inodes)
    ensures Sound(a.(ino := 0), inodes)
  {
  }

  lemma BindTiles(b: Block, i: nat, name: string, ino: nat, blockSize: nat, inodes: nat)
    requires Tiles(b, blockSize, inodes) && i < |b| && b[i].ino == 0
    requires b[i].len >= RecLen(|name|) && name != "" && ino <= inodes
    ensures Tiles(b[i := b[i].(name := name, ino := ino)], blockSize, inodes)
  {
    hide LiveFrom, Size;
    BindLive(b, i, name, ino, 0);
    TilesIf(b[i := b[i].(name := name, ino := ino)], blockSize, inodes);
  }

  /** A block that holds one free record. */
  lemma FreeBlockTiles(blockSize: nat, inodes: nat)
    requires blockSize >= MIN_LEN && blockSize % 4 == 0
    ensures Tiles([Rec(0, blockSize, "")], blockSize, inodes)
  {
    OneRecord(Rec(0, blockSize, ""), 0);
    TilesIf([Rec(0, blockSize, "")], blockSize, inodes);
  }

  lemma GrownLive(blocks: seq<Block>, blockSize: nat)
    ensures Live(blocks + [[Rec(0, blockSize, "")]]) == Live(blocks)
  {
    var b := [Rec(0, blockSize, "")];
    FlatConcat(blocks, [b]);
    assert Flat([b]) == b + Flat([]) == b by { assert [b][1..] == []; }
    LiveConcat(Flat(blocks), b, 0);
    OneRecord(b[0], Size(Flat(blocks)));
  }
}
