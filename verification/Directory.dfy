/** A directory's blocks searched and changed in place: ext2_find_entry, ext2_add_entry,
    ext2_delete_entry, and the map from names to inodes they implement. */
module Directory {
  import opened Records

  datatype Outcome = Added | Exists | NoSpace | NoEntry | Invalid

  function LowerChar(c: char): char {
    if 'A' <= c <= 'Z' then c + 'a' - 'A' else c
  }

  ghost function Lower(s: string): (r: string)
    ensures |r| == |s|
  {
    seq(|s|, i requires 0 <= i < |s| => LowerChar(s[i]))
  }

  /** The form of a name that is compared: without case when the mode retains case only. */
  ghost function Fold(s: string, caseless: bool): string {
    if caseless then Lower(s) else s
  }

  /** The same letter in upper and in lower case. */
  ghost predicate OtherCase(upper: char, lower: char) {
    'A' <= upper <= 'Z' && lower as int == upper as int + 32
  }

  /** Names that count as one: equal, or, when the mode retains case only, of the same letters. The
      empty name stands for ".". */
  ghost predicate Alike(name: string, s: string, caseless: bool) {
    || name == s
    || (name == "" && s == ".")
    || (caseless && |name| == |s| && forall i | 0 <= i < |s| ::
          name[i] == s[i] || OtherCase(name[i], s[i]) || OtherCase(s[i], name[i]))
  }

  lemma LowerCharMeans(c: char, d: char)
    ensures LowerChar(c) == LowerChar(d) <==> c == d || OtherCase(c, d) || OtherCase(d, c)
  {
  }

  /** Comparing the folded forms tells which names count as one. */
  lemma SameIsAlike(name: string, s: string, caseless: bool)
    ensures SameName(name, s, caseless) <==> Alike(name, s, caseless)
  {
    forall i | 0 <= i < |name| && i < |s|
      ensures Lower(name)[i] == Lower(s)[i] <==>
              name[i] == s[i] || OtherCase(name[i], s[i]) || OtherCase(s[i], name[i])
    {
      LowerCharMeans(name[i], s[i]);
    }
    assert Lower(name) == Lower(s) <==> |name| == |s| && forall i | 0 <= i < |s| :: Lower(name)[i] == Lower(s)[i];
  }

  function Cut(name: string): (cut: string)
    ensures cut == if |name| <= 255 then name else name[..255]
  {
    if |name| > NAME_LEN then name[..NAME_LEN] else name
  }

  /** ext2_match: the empty name stands for ".". */
  ghost predicate Matches(name: string, r: Rec, caseless: bool) {
    r.ino != 0 && SameName(name, r.name, caseless)
  }

  ghost predicate SameName(name: string, s: string, caseless: bool) {
    (name == "" && s == ".") || Fold(name, caseless) == Fold(s, caseless)
  }

  /** ext2_match: a live record whose name counts as the one given, character by character. */
  method Match(name: string, r: Rec, caseless: bool) returns (same: bool)
    ensures same <==> r.ino != 0 && Alike(name, r.name, caseless)
    ensures same <==> Matches(name, r, caseless)
  {
    var s := r.name;
    SameIsAlike(name, s, caseless);
    if r.ino == 0 {
      return false;
    }
    if name == "" && s == "." {
      return true;
    }
    if |name| != |s| {
      return false;
    }
    var i := 0;
    while i < |s|
      invariant i <= |s| && forall j | 0 <= j < i ::
                  name[j] == s[j] || (caseless && (OtherCase(name[j], s[j]) || OtherCase(s[j], name[j])))
    {
      LowerCharMeans(name[i], s[i]);
      if if caseless then LowerChar(name[i]) != LowerChar(s[i]) else name[i] != s[i] {
        return false;
      }
      i := i + 1;
    }
    same := true;
  }

  /** The inode number of the first record with the name; 0 when there is none. */
  ghost function FirstMatch(rs: seq<Rec>, name: string, caseless: bool): nat {
    if rs == [] then 0 else if Matches(name, rs[0], caseless) then rs[0].ino else FirstMatch(rs[1..], name, caseless)
  }

  /** What a search of the directory answers. */
  ghost function Answer(blocks: seq<Block>, name: string, caseless: bool): nat {
    FirstMatch(Flat(blocks), Cut(name), caseless)
  }

  /** What the live entries bind, by the form of the name that is compared. */
  ghost function Names(live: set<Entry>, caseless: bool): map<string, nat> {
    map s | s in (set e | e in live :: Fold(e.name, caseless)) :: InoOf(live, s, caseless)
  }

  ghost function InoOf(live: set<Entry>, s: string, caseless: bool): nat
    requires exists e :: e in live && Fold(e.name, caseless) == s
  {
    var e :| e in live && Fold(e.name, caseless) == s;
    e.ino
  }

  /** The record can take a name that needs n bytes, by itself or after its own. */
  ghost predicate Fits(r: Rec, n: nat) {
    (r.ino == 0 && r.len >= n) || r.len >= RecLen(|r.name|) + n
  }

  /** The scan reaches (j, m) before (k, i). */
  predicate Before(j: nat, m: nat, k: nat, i: nat) {
    j < k || (j == k && m < i)
  }

  ghost predicate AllTile(blocks: seq<Block>, blockSize: nat, inodes: nat) {
    forall k {:trigger blocks[k]} | 0 <= k < |blocks| :: Tiles(blocks[k], blockSize, inodes)
  }

  /** No live record that the scan reaches before (k, i) has the name. */
  ghost predicate NoMatchBefore(blocks: seq<Block>, name: string, caseless: bool, k: nat, i: nat) {
    forall j, m | 0 <= j < |blocks| && 0 <= m < |blocks[j]| && Before(j, m, k, i) :: !Matches(name, blocks[j][m], caseless)
  }

  ghost predicate NoFitBefore(blocks: seq<Block>, n: nat, k: nat, i: nat) {
    forall j, m | 0 <= j < |blocks| && 0 <= m < |blocks[j]| && Before(j, m, k, i) :: !Fits(blocks[j][m], n)
  }

  predicate At(blocks: seq<Block>, k: nat, i: nat) {
    k < |blocks| && i < |blocks[k]|
  }

  /** The byte offset in the file of record i of block k. */
  function Pos(blocks: seq<Block>, blockSize: nat, k: nat, i: nat): nat
    requires At(blocks, k, i)
  {
    k * blockSize + Size(blocks[k][..i])
  }

  /** The name is bound by a live record. */
  ghost predicate Bound(live: set<Entry>, name: string, caseless: bool) {
    exists e :: e in live && Fold(e.name, caseless) == Fold(name, caseless)
  }

  /** No two live records have the same name. */
  ghost predicate Unique(live: set<Entry>, caseless: bool) {
    forall e, f | e in live && f in live && Fold(e.name, caseless) == Fold(f.name, caseless) :: e == f
  }

  // ----- records and live entries

  lemma TilesLens(b: Block, blockSize: nat, inodes: nat)
    requires Tiles(b, blockSize, inodes)
    ensures Size(b) == blockSize && forall i | 0 <= i < |b| :: b[i].len > 0 && b[i].len >= RecLen(|b[i].name|)
  {
  }

  lemma AllSizes(blocks: seq<Block>, blockSize: nat, inodes: nat)
    requires AllTile(blocks, blockSize, inodes)
    ensures forall k | 0 <= k < |blocks| :: Size(blocks[k]) == blockSize
  {
  }

  /** A live record is a live entry. */
  lemma RecordIsLive(blocks: seq<Block>, blockSize: nat, inodes: nat, k: nat, i: nat)
    requires AllTile(blocks, blockSize, inodes) && At(blocks, k, i) && blocks[k][i].ino != 0
    ensures Entry(Pos(blocks, blockSize, k, i), blocks[k][i].name, blocks[k][i].ino) in Live(blocks)
  {
    AllSizes(blocks, blockSize, inodes);
    LiveAt(blocks[k], k * blockSize, i);
    LiveAround(blocks, blockSize, k);
  }

  /** A live entry is a live record. */
  lemma {:induction false} EntryIsRecord(blocks: seq<Block>, blockSize: nat, base: nat, e: Entry) returns (k: nat, i: nat)
    requires e in LiveFrom(Flat(blocks), base)
    requires forall j | 0 <= j < |blocks| :: Size(blocks[j]) == blockSize
    ensures At(blocks, k, i) && blocks[k][i].ino != 0
    ensures e == Entry(base + Pos(blocks, blockSize, k, i), blocks[k][i].name, blocks[k][i].ino)
  {
    LiveConcat(blocks[0], Flat(blocks[1..]), base);
    if e in LiveFrom(blocks[0], base) {
      k := 0;
      i := LiveIndex(blocks[0], base, e);
    } else {
      var j, m := EntryIsRecord(blocks[1..], blockSize, base + blockSize, e);
      k, i := j + 1, m;
      assert (j + 1) * blockSize == j * blockSize + blockSize;
    }
  }

  /** A name the whole scan does not meet is not bound. */
  lemma NotMetNotBound(blocks: seq<Block>, blockSize: nat, inodes: nat, name: string, caseless: bool, k: nat)
    requires AllTile(blocks, blockSize, inodes) && k >= |blocks|
    requires NoMatchBefore(blocks, name, caseless, k, 0)
    ensures !Bound(Live(blocks), name, caseless)
    ensures name == "" ==> forall e | e in Live(blocks) :: e.name != "."
  {
    AllSizes(blocks, blockSize, inodes);
    forall e | e in Live(blocks)
      ensures Fold(e.name, caseless) != Fold(name, caseless) && (name == "" ==> e.name != ".")
    {
      var j, m := EntryIsRecord(blocks, blockSize, 0, e);
      assert Before(j, m, k, 0);
    }
  }

  /** A match comes before any record the name fits in, so that the scan meets it. */
  ghost predicate MatchFirst(blocks: seq<Block>, name: string, caseless: bool) {
    exists k: nat, i: nat :: At(blocks, k, i) && Matches(name, blocks[k][i], caseless) && NoFitBefore(blocks, RecLen(|name|), k, i)
  }

  /** Some record can take a name that needs n bytes. */
  ghost predicate AnyFits(blocks: seq<Block>, n: nat) {
    exists k: nat, i: nat :: At(blocks, k, i) && Fits(blocks[k][i], n)
  }

  /** When a name can be added: after a search if that does not find it, without one if the scan for
      room does not meet it first. */
  ghost predicate Addable(blocks: seq<Block>, name: string, caseless: bool, room: bool, search: bool) {
    && name != "" && blocks != [] && (room || AnyFits(blocks, RecLen(|Cut(name)|)))
    && if search then Answer(blocks, name, caseless) == 0 else !MatchFirst(blocks, Cut(name), caseless)
  }

  // ----- what the operations make of the records

  /** One more live entry, which is what a search for its name then finds. */
  ghost predicate NameAdded(was: seq<Block>, name: string, ino: nat, caseless: bool, now: seq<Block>) {
    && (exists pos :: Live(now) == Live(was) + {Entry(pos, Cut(name), ino)})
    && Answer(now, name, caseless) == ino
  }

  /** One live entry less, the one a search for the name found. */
  ghost predicate NameRemoved(was: seq<Block>, name: string, caseless: bool, now: seq<Block>) {
    exists e :: e in Live(was) && SameName(Cut(name), e.name, caseless) && e.ino == Answer(was, name, caseless)
                && Live(now) == Live(was) - {e}
  }

  /** A record with the name has another inode number. */
  ghost predicate NameReplaced(was: seq<Block>, name: string, ino: nat, caseless: bool, now: seq<Block>) {
    exists spelled :: Renumbered(was, Cut(name), caseless, spelled, ino, now)
  }

  /** The scan passes record (k, i). */
  lemma ScanOn(blocks: seq<Block>, name: string, caseless: bool, n: nat, k: nat, i: nat)
    requires At(blocks, k, i) && !Matches(name, blocks[k][i], caseless)
    requires NoMatchBefore(blocks, name, caseless, k, i)
    ensures NoMatchBefore(blocks, name, caseless, k, i + 1)
    ensures NoFitBefore(blocks, n, k, i) && !Fits(blocks[k][i], n) ==> NoFitBefore(blocks, n, k, i + 1)
  {
  }

  /** A scan that stops at a fitting record without having met the name meets it nowhere. */
  lemma FitStopsScan(blocks: seq<Block>, name: string, caseless: bool, k: nat, i: nat)
    requires At(blocks, k, i) && NoMatchBefore(blocks, name, caseless, k, i)
    requires !Matches(name, blocks[k][i], caseless) && Fits(blocks[k][i], RecLen(|name|))
    ensures !MatchFirst(blocks, name, caseless)
  {
    forall j: nat, m: nat | At(blocks, j, m) && Matches(name, blocks[j][m], caseless)
      ensures !NoFitBefore(blocks, RecLen(|name|), j, m)
    {
      assert !Before(j, m, k, i) && Before(k, i, j, m);
    }
  }

  /** A record that gets an inode where the scan has not met its name is what a search then finds. */
  lemma BoundFirst(blocks: seq<Block>, name: string, caseless: bool, k: nat, i: nat, ino: nat)
    requires At(blocks, k, i) && NoMatchBefore(blocks, Cut(name), caseless, k, i) && ino != 0
    requires SameName(Cut(name), blocks[k][i].name, caseless)
    ensures Answer(blocks[k := blocks[k][i := blocks[k][i].(ino := ino)]], name, caseless) == ino
  {
    hide FirstMatch, SameName, Fold;
    AnswerFound(blocks[k := blocks[k][i := blocks[k][i].(ino := ino)]], Cut(name), caseless, k, i);
  }

  /** A record with the name gets another inode number, and nothing else changes. */
  ghost predicate Renumbered(was: seq<Block>, key: string, caseless: bool, spelled: string, ino: nat, now: seq<Block>) {
    exists k: nat, i: nat ::
      && At(was, k, i) && Matches(key, was[k][i], caseless) && was[k][i].name == spelled
      && now == was[k := was[k][i := was[k][i].(ino := ino)]]
  }

  /** What a search finds first it also finds first under the record's own spelling. */
  lemma SpelledFirst(blocks: seq<Block>, name: string, caseless: bool, k: nat, i: nat)
    requires At(blocks, k, i) && NoMatchBefore(blocks, name, caseless, k, i) && Matches(name, blocks[k][i], caseless)
    ensures NoMatchBefore(blocks, blocks[k][i].name, caseless, k, i)
    ensures SameName(blocks[k][i].name, blocks[k][i].name, caseless)
  {
    var spelled := blocks[k][i].name;
    forall j: nat, m: nat | j < |blocks| && m < |blocks[j]| && Before(j, m, k, i)
      ensures !Matches(spelled, blocks[j][m], caseless)
    {
      FoldedDots(blocks[j][m].name, caseless);
      FoldedDots(spelled, caseless);
      assert !Matches(name, blocks[j][m], caseless);
      EmptyFolds(name, caseless);
      EmptyFolds(spelled, caseless);
      hide Fold;
    }
  }

  lemma EmptyFolds(name: string, caseless: bool)
    ensures Fold(name, caseless) == "" <==> name == ""
  {
  }

  /** The records of a directory always pass ext2_check_dir_entry. */
  lemma CheckPasses(blocks: seq<Block>, blockSize: nat, inodes: nat, k: nat, i: nat)
    requires AllTile(blocks, blockSize, inodes) && At(blocks, k, i)
    ensures CheckEntry(blocks[k][i], Size(blocks[k][..i]), blockSize, inodes)
  {
  }

  /** A fresh block has room for any name. */
  lemma FreeBlockFits(blocks: seq<Block>, blockSize: nat, name: string, caseless: bool)
    requires |name| <= NAME_LEN && blockSize >= RecLen(NAME_LEN)
    ensures !Matches(name, Rec(0, blockSize, ""), caseless) && Fits(Rec(0, blockSize, ""), RecLen(|name|))
  {
  }

  /** The scan of ext2_find_entry: the first live record with the name, in block and record order. */
  method FindIn(blocks: seq<Block>, name: string, caseless: bool) returns (found: bool, k: nat, i: nat)
    ensures found ==> At(blocks, k, i) && Matches(name, blocks[k][i], caseless) && Alike(name, blocks[k][i].name, caseless)
    ensures !found ==> k == |blocks| && i == 0
    ensures NoMatchBefore(blocks, name, caseless, k, i)
    ensures FirstMatch(Flat(blocks), name, caseless) == if found then blocks[k][i].ino else 0
  {
    hide FirstMatch, Alike;
    k := 0;
    while k < |blocks|
      invariant k <= |blocks| && NoMatchBefore(blocks, name, caseless, k, 0)
    {
      i := 0;
      while i < |blocks[k]|
        invariant i <= |blocks[k]| && NoMatchBefore(blocks, name, caseless, k, i)
      {
        var same := Match(name, blocks[k][i], caseless);
        if same {
          AnswerFound(blocks, name, caseless, k, i);
          return true, k, i;
        }
        ScanOn(blocks, name, caseless, 0, k, i);
        i := i + 1;
      }
      k := k + 1;
    }
    AnswerNone(blocks, name, caseless, k);
    found, i := false, 0;
  }

  class Directory {
    var blocks: seq<Block>
    var version: nat
    var event: nat
    const blockSize: nat
    const inodes: nat
    const caseless: bool

    ghost predicate Valid()
      reads this
    {
      && blockSize >= RecLen(NAME_LEN) && blockSize % 4 == 0
      && AllTile(blocks, blockSize, inodes) && version <= event
    }

    /** Either nothing changed, or the version is newer than any stamp given out before. */
    ghost predicate Stamped(was: seq<Block>, wasVersion: nat, wasEvent: nat)
      reads this
    {
      event >= wasEvent && ((blocks == was && version == wasVersion) || version > wasEvent)
    }

    constructor (blocks: seq<Block>, version: nat, event: nat, blockSize: nat, inodes: nat, caseless: bool)
      requires blockSize >= RecLen(NAME_LEN) && blockSize % 4 == 0 && AllTile(blocks, blockSize, inodes) && version <= event
      ensures Valid() && this.blocks == blocks && this.version == version && this.event == event
      ensures this.blockSize == blockSize && this.inodes == inodes && this.caseless == caseless
    {
      this.blocks, this.version, this.event := blocks, version, event;
      this.blockSize, this.inodes, this.caseless := blockSize, inodes, caseless;
    }

    method Stamp()
      modifies this`version, this`event
      ensures version == event == old(event) + 1
    {
      event := event + 1;
      version := event;
    }

    /** The first live record with the name, if there is one. */
    method FindEntry(name: string) returns (found: bool, k: nat, i: nat)
      requires Valid()
      ensures found ==> At(blocks, k, i) && Matches(Cut(name), blocks[k][i], caseless) && Alike(Cut(name), blocks[k][i].name, caseless)
                        && NoMatchBefore(blocks, Cut(name), caseless, k, i)
      ensures !found ==> !Bound(Live(blocks), Cut(name), caseless) && (name == "" ==> forall e | e in Live(blocks) :: e.name != ".")
      ensures Answer(blocks, name, caseless) == if found then blocks[k][i].ino else 0
      ensures found <==> exists e :: e in Live(blocks) && Alike(Cut(name), e.name, caseless)
    {
      hide FirstMatch, Alike;
      var key := Cut(name);
      found, k, i := FindIn(blocks, key, caseless);
      if found {
        RecordIsLive(blocks, blockSize, inodes, k, i);
        return;
      }
      NotMetNotBound(blocks, blockSize, inodes, key, caseless, k);
      forall e | e in Live(blocks)
        ensures !Alike(key, e.name, caseless)
      {
        SameIsAlike(key, e.name, caseless);
      }
    }

    /** Makes a record for the name, still without an inode: the first one it fits in, or the
        start of a new block, which always fits. */
    method AddEntry(name: string, room: bool) returns (s: Outcome, k: nat, i: nat)
      requires Valid()
      modifies this
      ensures Valid() && Live(blocks) == Live(old(blocks)) && version >= old(version)
      ensures s == Invalid <==> name == ""
      ensures s == NoEntry <==> name != "" && old(blocks) == []
      ensures s == Exists <==> name != "" && MatchFirst(old(blocks), Cut(name), caseless)
      ensures s == NoSpace ==> !room && !Bound(Live(blocks), Cut(name), caseless)
      ensures s == Added <==> Addable(old(blocks), name, caseless, room, false)
      ensures s == Added ==> At(blocks, k, i) && blocks[k][i].ino == 0 && blocks[k][i].name == Cut(name)
      ensures s == Added ==> version == event == old(event) + 1 && NoMatchBefore(blocks, Cut(name), caseless, k, i)
      ensures s != Added ==> blocks == old(blocks) && version == old(version) && event == old(event)
      ensures |blocks| >= |old(blocks)|
    {
      hide LiveFrom, Size, Tiles, Matches, CheckEntry, AnyFits;
      var key := Cut(name);
      k, i := 0, 0;
      if key == "" {
        return Invalid, 0, 0;
      }
      if |blocks| == 0 {
        return NoEntry, 0, 0;
      }
      var n := RecLen(|key|);
      ghost var grown := false;
      while true
        invariant Valid() && version == old(version) && event == old(event)
        invariant k < |blocks| && i <= |blocks[k]|
        invariant !grown ==> blocks == old(blocks)
        invariant NoMatchBefore(blocks, key, caseless, k, i) && (!grown ==> NoFitBefore(blocks, n, k, i))
        invariant grown ==> blocks == old(blocks) + [[Rec(0, blockSize, "")]] && k == |old(blocks)| && i == 0
        invariant grown ==> room && !MatchFirst(old(blocks), key, caseless)
        invariant grown ==> !Matches(key, blocks[k][i], caseless) && Fits(blocks[k][i], n)
        decreases if grown then 0 else 1, |blocks| - k, |blocks[k]| - i
      {
        if i == |blocks[k]| {
          k, i := k + 1, 0;
          if k == |blocks| {
            NotMetNotBound(blocks, blockSize, inodes, key, caseless, k);
            NowhereNoMatch(blocks, key, caseless, k);
            NowhereFits(blocks, n, k);
            if !room {
              return NoSpace, 0, 0;
            }
            FreeBlockTiles(blockSize, inodes);
            FreeBlockFits(blocks, blockSize, key, caseless);
            blocks := blocks + [[Rec(0, blockSize, "")]];
            grown := true;
          }
        } else {
          CheckPasses(blocks, blockSize, inodes, k, i);
          assert CheckEntry(blocks[k][i], Size(blocks[k][..i]), blockSize, inodes);
          var same := Match(key, blocks[k][i], caseless);
          if same {
            return Exists, 0, 0;
          }
          var r := blocks[k][i];
          if (r.ino == 0 && r.len >= n) || r.len >= RecLen(|r.name|) + n {
            if !grown {
              FitStopsScan(blocks, key, caseless, k, i);
              SomeFits(blocks, n, k, i);
            }
            i := Take(k, i, key);
            if grown {
              GrownLive(old(blocks), blockSize);
            }
            return Added, k, i;
          }
          ScanOn(blocks, key, caseless, n, k, i);
          i := i + 1;
        }
      }
    }

    /** The record at i, or what its own name leaves of it, takes the name. */
    method Take(k: nat, i: nat, key: string) returns (j: nat)
      requires Valid() && At(blocks, k, i) && Fits(blocks[k][i], RecLen(|key|)) && key != ""
      requires NoMatchBefore(blocks, key, caseless, k, i) && !Matches(key, blocks[k][i], caseless)
      modifies this
      ensures Valid() && Live(blocks) == Live(old(blocks))
      ensures At(blocks, k, j) && blocks[k][j].ino == 0 && blocks[k][j].name == key
      ensures version == event == old(event) + 1 && |blocks| == |old(blocks)|
      ensures NoMatchBefore(blocks, key, caseless, k, j)
    {
      hide LiveFrom, Size;
      ghost var b := blocks[k];
      AllSizes(blocks, blockSize, inodes);
      j := i;
      if blocks[k][i].ino != 0 {
        SplitLive(b, i, "", k * blockSize);
        SplitLive(b, i, key, k * blockSize);
        SplitTiles(b, i, key, blockSize, inodes);
        var used := RecLen(|blocks[k][i].name|);
        var de1 := Rec(0, blocks[k][i].len - used, key);
        LiveReplaced(blocks, blockSize, k, Split(b, i, key));
        blocks := blocks[k := blocks[k][..i] + [blocks[k][i].(len := used), de1] + blocks[k][i + 1..]];
        j := i + 1;
      } else {
        BindLive(b, i, key, 0, k * blockSize);
        BindTiles(b, i, key, 0, blockSize, inodes);
        LiveReplaced(blocks, blockSize, k, b[i := b[i].(name := key, ino := 0)]);
        blocks := blocks[k := blocks[k][i := blocks[k][i].(name := key, ino := 0)]];
      }
      Stamp();
    }

    /** Gives a record made by AddEntry its inode: one more live entry, nothing else. */
    method Bind(k: nat, i: nat, ino: nat)
      requires Valid() && At(blocks, k, i) && blocks[k][i].ino == 0 && blocks[k][i].name != ""
      requires 0 < ino <= inodes
      modifies this
      ensures Valid() && At(old(blocks), k, i)
      ensures Live(blocks) == Live(old(blocks)) + {Entry(Pos(old(blocks), blockSize, k, i), old(blocks[k][i].name), ino)}
      ensures blocks == old(blocks)[k := old(blocks[k])[i := old(blocks[k][i]).(ino := ino)]]
      ensures version == event == old(event) + 1 && |blocks| == |old(blocks)|
    {
      hide LiveFrom, Size;
      ghost var b := blocks[k];
      AllSizes(blocks, blockSize, inodes);
      BindLive(b, i, b[i].name, ino, k * blockSize);
      BindTiles(b, i, b[i].name, ino, blockSize, inodes);
      LiveReplaced(blocks, blockSize, k, b[i := b[i].(name := b[i].name, ino := ino)]);
      blocks := blocks[k := blocks[k][i := blocks[k][i].(ino := ino)]];
      Stamp();
    }

    /** Gives a live record another inode number, as rename does when it replaces a name and when it
        corrects "..": the entry at that place changes, and no other. */
    method Renumber(k: nat, i: nat, ino: nat)
      requires Valid() && At(blocks, k, i) && blocks[k][i].ino != 0 && 0 < ino <= inodes
      modifies this`blocks
      ensures Valid() && At(old(blocks), k, i) && |blocks| == |old(blocks)|
      ensures blocks == old(blocks)[k := old(blocks[k])[i := old(blocks[k][i]).(ino := ino)]]
      ensures var pos := Pos(old(blocks), blockSize, k, i);
              && Entry(pos, old(blocks[k][i].name), ino) in Live(blocks)
              && Entry(pos, old(blocks[k][i].name), old(blocks[k][i].ino)) in Live(old(blocks))
              && forall e: Entry | e.pos != pos :: e in Live(blocks) <==> e in Live(old(blocks))
    {
      hide LiveFrom, Live, Size, Tiles;
      ghost var b := blocks[k];
      AllSizes(blocks, blockSize, inodes);
      RenumberLive(b, i, ino, k * blockSize);
      RenumberTiles(b, i, ino, blockSize, inodes);
      LiveReplaced(blocks, blockSize, k, b[i := b[i].(ino := ino)]);
      blocks := blocks[k := blocks[k][i := blocks[k][i].(ino := ino)]];
    }

    /** Deletes a record found before: one live entry less, nothing else. */
    method DeleteEntry(k: nat, i: nat)
      requires Valid() && At(blocks, k, i) && blocks[k][i].ino != 0
      modifies this
      ensures Valid() && At(old(blocks), k, i)
      ensures var e := Entry(Pos(old(blocks), blockSize, k, i), old(blocks[k][i].name), old(blocks[k][i].ino));
              e in Live(old(blocks)) && Live(blocks) == Live(old(blocks)) - {e}
      ensures version == event == old(event) + 1 && |blocks| == |old(blocks)|
    {
      hide LiveFrom, Live, Size;
      var j := 0;
      while j != i
        invariant j <= i
      {
        assert CheckEntry(blocks[k][j], Size(blocks[k][..j]), blockSize, inodes);
        j := j + 1;
      }
      Deleted(blocks, blockSize, inodes, k, i);
      if j == 0 {
        blocks := blocks[k := blocks[k][0 := blocks[k][0].(ino := 0)]];
      } else {
        var pde := blocks[k][j - 1];
        blocks := blocks[k := blocks[k][..j - 1] + [pde.(len := pde.len + blocks[k][j].len)] + blocks[k][j + 1..]];
      }
      Stamp();
    }

    /** How link, mkdir and rename add a name: only when the search does not find it. */
    method Insert(name: string, ino: nat, room: bool) returns (s: Outcome)
      requires Valid() && 0 < ino <= inodes
      modifies this
      ensures Valid() && (Unique(Live(old(blocks)), caseless) ==> Unique(Live(blocks), caseless))
      ensures s == Exists ==> name == "" || Bound(Live(blocks), Cut(name), caseless)
      ensures name != "" && Bound(Live(old(blocks)), Cut(name), caseless) ==> s == Exists
      ensures s == Added ==> exists pos :: Live(blocks) == Live(old(blocks)) + {Entry(pos, Cut(name), ino)}
      ensures s == Added && Unique(Live(old(blocks)), caseless) ==>
                Names(Live(blocks), caseless) == Names(Live(old(blocks)), caseless)[Fold(Cut(name), caseless) := ino]
      ensures s == Added ==> Answer(blocks, name, caseless) == ino && version == event == old(event) + 2
      ensures s == Added ==> !Bound(Live(old(blocks)), Cut(name), caseless)
      ensures s == Added <==> Addable(old(blocks), name, caseless, room, true)
      ensures s == Added ==> NameAdded(old(blocks), name, ino, caseless, blocks)
      ensures s != Added ==> blocks == old(blocks)
      ensures s != Added ==> Live(blocks) == Live(old(blocks))
      ensures name != "" && !Bound(Live(old(blocks)), Cut(name), caseless) && room && old(blocks) != [] ==> s == Added
      ensures Stamped(old(blocks), old(version), old(event)) && |blocks| >= |old(blocks)|
    {
      hide LiveFrom, Size, Tiles, FirstMatch, Names, AnyFits, MatchFirst;
      var found, k, i := FindEntry(name);
      if found {
        FoundIsBound(blocks, blockSize, inodes, Cut(name), caseless, k, i);
        return Exists;
      }
      UnfoundUnmet(blocks, name, caseless);
      s, k, i := AddEntry(name, room);
      if s == Added {
        ghost var mid := Live(blocks);
        ghost var e := Entry(Pos(blocks, blockSize, k, i), Cut(name), ino);
        BoundFirst(blocks, name, caseless, k, i, ino);
        Bind(k, i, ino);
        if Unique(mid, caseless) {
          AddKeepsUnique(mid, e, caseless);
          NamesAdded(mid, e, caseless);
        }
      }
    }

    /** How unlink and rmdir remove a name: exactly its binding goes. */
    method Remove(name: string) returns (s: Outcome, ghost e: Entry)
      requires Valid()
      modifies this
      ensures Valid() && (Unique(Live(old(blocks)), caseless) ==> Unique(Live(blocks), caseless))
      ensures s == NoEntry ==> !Bound(Live(blocks), Cut(name), caseless) && blocks == old(blocks)
      ensures s != NoEntry ==> e in Live(old(blocks)) && Live(blocks) == Live(old(blocks)) - {e}
      ensures Stamped(old(blocks), old(version), old(event)) && |blocks| >= |old(blocks)|
      ensures s != NoEntry ==>
                (if name == "" && e.name == "." then true else
                   && Fold(e.name, caseless) == Fold(Cut(name), caseless)
                   && (Unique(Live(old(blocks)), caseless) ==> !Bound(Live(blocks), Cut(name), caseless)))
      ensures s != NoEntry && Unique(Live(old(blocks)), caseless) ==>
                Names(Live(blocks), caseless) == Names(Live(old(blocks)), caseless) - {Fold(e.name, caseless)}
      ensures s == if Answer(old(blocks), name, caseless) == 0 then NoEntry else Added
      ensures s == Added ==> e.ino == Answer(old(blocks), name, caseless)
      ensures s == Added ==> version == event == old(event) + 1
      ensures s == Added ==> NameRemoved(old(blocks), name, caseless, blocks)
    {
      hide LiveFrom, Size, Tiles, FirstMatch, Names;
      e := Entry(0, "", 0);
      var found, k, i := FindEntry(name);
      if !found {
        return NoEntry, e;
      }
      e := Entry(Pos(blocks, blockSize, k, i), blocks[k][i].name, blocks[k][i].ino);
      DeleteEntry(k, i);
      if Unique(Live(old(blocks)), caseless) {
        NamesRemoved(Live(old(blocks)), e, caseless);
      }
      s := Added;
    }

    /** How create adds a name: without searching first. */
    method Create(name: string, ino: nat, room: bool) returns (s: Outcome)
      requires Valid() && 0 < ino <= inodes
      modifies this
      ensures Valid() && Stamped(old(blocks), old(version), old(event)) && |blocks| >= |old(blocks)|
      ensures s == Added ==> exists pos :: Live(blocks) == Live(old(blocks)) + {Entry(pos, Cut(name), ino)}
      ensures s == Exists <==> name != "" && MatchFirst(old(blocks), Cut(name), caseless)
      ensures s == Invalid <==> name == ""
      ensures s == NoEntry <==> name != "" && old(blocks) == []
      ensures s == NoSpace ==> !room && !Bound(Live(old(blocks)), Cut(name), caseless)
      ensures s == Added ==> Answer(blocks, name, caseless) == ino && version == event == old(event) + 2
      ensures s == Added <==> Addable(old(blocks), name, caseless, room, false)
      ensures s == Added ==> NameAdded(old(blocks), name, ino, caseless, blocks)
      ensures s != Added ==> blocks == old(blocks)
    {
      hide LiveFrom, Live, Size, Tiles;
      var k, i;
      s, k, i := AddEntry(name, room);
      if s == Added {
        BoundFirst(blocks, name, caseless, k, i, ino);
        Bind(k, i, ino);
      }
    }

    /** How rename replaces what a name binds: in place, under a new stamp. The record keeps its own
        spelling of the name. */
    method Replace(name: string, ino: nat) returns (s: Outcome, spelled: string)
      requires Valid() && 0 < ino <= inodes
      modifies this
      ensures Valid() && Stamped(old(blocks), old(version), old(event)) && |blocks| == |old(blocks)|
      ensures s == if Answer(old(blocks), name, caseless) == 0 then NoEntry else Added
      ensures s == Added ==> version == event == old(event) + 1 && Answer(blocks, name, caseless) == ino
      ensures s == Added && |spelled| <= NAME_LEN ==> Answer(blocks, spelled, caseless) == ino
      ensures s == Added ==> Renumbered(old(blocks), Cut(name), caseless, spelled, ino, blocks)
      ensures s == Added ==> NameReplaced(old(blocks), name, ino, caseless, blocks)
      ensures s != Added ==> blocks == old(blocks)
    {
      hide LiveFrom, Live, Size, Tiles, FirstMatch;
      spelled := "";
      var found, k, i := FindEntry(name);
      if !found {
        return NoEntry, spelled;
      }
      spelled := blocks[k][i].name;
      BoundFirst(blocks, name, caseless, k, i, ino);
      if |spelled| <= NAME_LEN {
        SpelledFirst(blocks, Cut(name), caseless, k, i);
        BoundFirst(blocks, spelled, caseless, k, i, ino);
      }
      Renumber(k, i, ino);
      Stamp();
      s := Added;
    }

    /** The end of a rename: the second record, which is "..", names the new parent. The stamp stays. */
    method Reparent(ino: nat, parent: nat)
      requires Valid() && StartsWithDots(blocks, ino) && 0 < parent <= inodes
      modifies this`blocks
      ensures Valid() && StartsWithDots(blocks, ino) && |blocks| == |old(blocks)|
      ensures blocks == Reparented(old(blocks), parent)
    {
      hide LiveFrom, Live, Size, Tiles;
      Renumber(0, 1, parent);
    }

    /** empty_dir: whether the records after the first two are all free. A directory that does not
        start with its own "." and a "..", or is too short for them, counts as empty. */
    method EmptyDir(ino: nat) returns (empty: bool)
      requires Valid() && 0 < ino
      ensures !StartsWithDots(blocks, ino) ==> empty
      ensures StartsWithDots(blocks, ino) ==> (empty <==> NoneAfterDots(blocks))
    {
      hide LiveFrom, Size;
      if |blocks| == 0 || |blocks[0]| < 2 {
        return true;
      }
      var de, de1 := blocks[0][0], blocks[0][1];
      if de.ino != ino || de1.ino == 0 || de.name != "." || de1.name != ".." {
        return true;
      }
      var k, i := 0, 2;
      while k < |blocks|
        invariant k <= |blocks| && (k == 0 ==> 2 <= i <= |blocks[0]|) && (0 < k < |blocks| ==> i <= |blocks[k]|)
        invariant forall j: nat, m: nat | At(blocks, j, m) && Before(j, m, k, i) && !(j == 0 && m < 2) :: blocks[j][m].ino == 0
        decreases |blocks| - k, if k < |blocks| then |blocks[k]| - i else 0
      {
        if i == |blocks[k]| {
          k, i := k + 1, 0;
        } else {
          assert CheckEntry(blocks[k][i], Size(blocks[k][..i]), blockSize, inodes);
          if blocks[k][i].ino != 0 {
            return false;
          }
          i := i + 1;
        }
      }
      empty := true;
    }
  }

  /** The first two records are "." with the directory's own number, and "..". */
  predicate StartsWithDots(blocks: seq<Block>, ino: nat) {
    && |blocks| > 0 && |blocks[0]| >= 2
    && blocks[0][0].ino == ino && blocks[0][0].name == "." && blocks[0][1].ino != 0 && blocks[0][1].name == ".."
  }

  /** The directory with another number in its second record. */
  function Reparented(blocks: seq<Block>, parent: nat): seq<Block>
    requires |blocks| > 0 && |blocks[0]| >= 2
  {
    blocks[0 := blocks[0][1 := blocks[0][1].(ino := parent)]]
  }

  ghost predicate NoneAfterDots(blocks: seq<Block>) {
    forall k: nat, i: nat | At(blocks, k, i) && !(k == 0 && i < 2) :: blocks[k][i].ino == 0
  }

  /** In a directory that starts with its dots, the scan says whether it binds anything else. */
  lemma EmptyBindsDots(blocks: seq<Block>, blockSize: nat, inodes: nat, ino: nat, caseless: bool)
    requires AllTile(blocks, blockSize, inodes) && StartsWithDots(blocks, ino) && ino != 0 && Unique(Live(blocks), caseless)
    ensures NoneAfterDots(blocks) <==> forall e | e in Live(blocks) :: e.name == "." || e.name == ".."
  {
    hide LiveFrom, Size, Tiles;
    AllSizes(blocks, blockSize, inodes);
    if NoneAfterDots(blocks) {
      forall e | e in Live(blocks)
        ensures e.name == "." || e.name == ".."
      {
        var k, i := EntryIsRecord(blocks, blockSize, 0, e);
      }
    } else {
      var k: nat, i: nat :| At(blocks, k, i) && !(k == 0 && i < 2) && blocks[k][i].ino != 0;
      RecordIsLive(blocks, blockSize, inodes, k, i);
      RecordIsLive(blocks, blockSize, inodes, 0, 0);
      RecordIsLive(blocks, blockSize, inodes, 0, 1);
      PosApart(blocks, blockSize, inodes, k, i);
    }
  }

  /** The dots have no other case. */
  lemma FoldedDots(name: string, caseless: bool)
    ensures Fold(name, caseless) == "." <==> name == "."
    ensures Fold(name, caseless) == ".." <==> name == ".."
  {
    assert LowerChar('.') == '.';
    assert |Lower(name)| == |name| && forall i | 0 <= i < |name| :: Lower(name)[i] == LowerChar(name[i]);
  }

  /** Records at different places start at different bytes. */
  lemma PosApart(blocks: seq<Block>, blockSize: nat, inodes: nat, k: nat, i: nat)
    requires AllTile(blocks, blockSize, inodes) && At(blocks, k, i) && At(blocks, 0, 1) && !(k == 0 && i < 2)
    ensures Pos(blocks, blockSize, k, i) > Pos(blocks, blockSize, 0, 1) > Pos(blocks, blockSize, 0, 0)
  {
    hide Tiles, Size;
    var b := blocks[0];
    AllSizes(blocks, blockSize, inodes);
    TilesLens(b, blockSize, inodes);
    FirstSizes(b, if k == 0 then i else 2);
    if k > 0 {
      AtLeast(k, blockSize);
    }
  }

  lemma AtLeast(k: nat, size: nat)
    requires k > 0
    ensures k * size >= size
  {
  }

  lemma FirstSizes(b: Block, i: nat)
    requires 2 <= i <= |b| && forall j | 0 <= j < |b| :: b[j].len > 0
    ensures Size(b[..0]) == 0 && Size(b[..1]) == b[0].len && Size(b[..i]) > b[0].len && Size(b) > b[0].len
  {
    assert b[..0] == [] && b[..1] == [b[0]] && b[..1][1..] == [];
    HeadSize(b);
    HeadSize(b[..i]);
  }

  lemma HeadSize(b: Block)
    requires |b| >= 2 && b[1].len > 0
    ensures Size(b) > b[0].len
  {
    assert b[1..][0] == b[1];
  }

  // ----- what a search answers

  lemma {:induction false} FirstMatchConcat(p: seq<Rec>, q: seq<Rec>, name: string, caseless: bool)
    ensures FirstMatch(p + q, name, caseless) ==
            if FirstMatch(p, name, caseless) != 0 then FirstMatch(p, name, caseless) else FirstMatch(q, name, caseless)
  {
    if p == [] {
      assert p + q == q;
    } else {
      assert (p + q)[1..] == p[1..] + q;
      FirstMatchConcat(p[1..], q, name, caseless);
    }
  }

  lemma {:induction false} FirstMatchNone(rs: seq<Rec>, name: string, caseless: bool)
    requires forall m | 0 <= m < |rs| :: !Matches(name, rs[m], caseless)
    ensures FirstMatch(rs, name, caseless) == 0
  {
    if rs != [] {
      FirstMatchNone(rs[1..], name, caseless);
    }
  }

  lemma {:induction false} FlatNone(blocks: seq<Block>, name: string, caseless: bool)
    requires forall j, m | 0 <= j < |blocks| && 0 <= m < |blocks[j]| :: !Matches(name, blocks[j][m], caseless)
    ensures FirstMatch(Flat(blocks), name, caseless) == 0
  {
    if blocks != [] {
      FirstMatchNone(blocks[0], name, caseless);
      FlatNone(blocks[1..], name, caseless);
      FirstMatchConcat(blocks[0], Flat(blocks[1..]), name, caseless);
    }
  }

  lemma AnswerNone(blocks: seq<Block>, key: string, caseless: bool, k: nat)
    requires k >= |blocks| && NoMatchBefore(blocks, key, caseless, k, 0)
    ensures FirstMatch(Flat(blocks), key, caseless) == 0
  {
    forall j: nat, m: nat | j < |blocks| && m < |blocks[j]|
      ensures !Matches(key, blocks[j][m], caseless)
    {
      assert Before(j, m, k, 0);
    }
    FlatNone(blocks, key, caseless);
  }

  lemma {:induction false} AnswerFound(blocks: seq<Block>, key: string, caseless: bool, k: nat, i: nat)
    requires At(blocks, k, i) && Matches(key, blocks[k][i], caseless) && NoMatchBefore(blocks, key, caseless, k, i)
    ensures FirstMatch(Flat(blocks), key, caseless) == blocks[k][i].ino
  {
    FirstMatchConcat(blocks[0], Flat(blocks[1..]), key, caseless);
    if k > 0 {
      FirstMatchNone(blocks[0], key, caseless) by {
        forall m: nat | m < |blocks[0]|
          ensures !Matches(key, blocks[0][m], caseless)
        {
          assert Before(0, m, k, i);
        }
      }
      assert NoMatchBefore(blocks[1..], key, caseless, k - 1, i) by {
        forall j: nat, m: nat | j < |blocks[1..]| && m < |blocks[1..][j]| && Before(j, m, k - 1, i)
          ensures !Matches(key, blocks[1..][j][m], caseless)
        {
          assert Before(j + 1, m, k, i) && blocks[1..][j] == blocks[j + 1];
        }
      }
      AnswerFound(blocks[1..], key, caseless, k - 1, i);
    } else {
      var b := blocks[0];
      FirstMatchNone(b[..i], key, caseless) by {
        forall m: nat | m < i
          ensures !Matches(key, b[m], caseless)
        {
          assert Before(0, m, k, i);
        }
      }
      assert b == b[..i] + b[i..];
      FirstMatchConcat(b[..i], b[i..], key, caseless);
    }
  }

  /** A search answers with a live entry of the name, and finds one whenever there is one. */
  lemma {:induction false} FirstMatchLive(rs: seq<Rec>, base: nat, name: string, caseless: bool)
    ensures FirstMatch(rs, name, caseless) == 0 ==>
              forall e | e in LiveFrom(rs, base) :: !SameName(name, e.name, caseless)
    ensures FirstMatch(rs, name, caseless) != 0 ==>
              exists e :: e in LiveFrom(rs, base) && SameName(name, e.name, caseless) && e.ino == FirstMatch(rs, name, caseless)
  {
    if rs != [] {
      FirstMatchLive(rs[1..], base + rs[0].len, name, caseless);
      if Matches(name, rs[0], caseless) {
        assert Entry(base, rs[0].name, rs[0].ino) in LiveFrom(rs, base);
      }
    }
  }

  /** When no two names are the same, the answer is the one live entry of the name. */
  lemma AnswerIs(blocks: seq<Block>, name: string, caseless: bool, e: Entry)
    requires Unique(Live(blocks), caseless) && e in Live(blocks) && name != ""
    requires Fold(e.name, caseless) == Fold(name, caseless)
    ensures FirstMatch(Flat(blocks), name, caseless) == e.ino
  {
    hide LiveFrom, FirstMatch;
    FirstMatchLive(Flat(blocks), 0, name, caseless);
  }

  lemma NamesAdded(live: set<Entry>, e: Entry, caseless: bool)
    requires Unique(live, caseless) && !Bound(live, e.name, caseless)
    ensures Names(live + {e}, caseless) == Names(live, caseless)[Fold(e.name, caseless) := e.ino]
  {
    hide InoOf;
    var more := live + {e};
    AddKeepsUnique(live, e, caseless);
    InoIs(more, e, caseless);
    forall f | f in live
      ensures f in more && InoOf(more, Fold(f.name, caseless), caseless) == f.ino == InoOf(live, Fold(f.name, caseless), caseless)
    {
      InoIs(live, f, caseless);
      InoIs(more, f, caseless);
    }
  }

  lemma NamesRemoved(live: set<Entry>, e: Entry, caseless: bool)
    requires Unique(live, caseless) && e in live
    ensures Names(live - {e}, caseless) == Names(live, caseless) - {Fold(e.name, caseless)}
  {
    hide InoOf;
    var rest := live - {e};
    forall f | f in rest
      ensures f in live && Fold(f.name, caseless) != Fold(e.name, caseless)
      ensures InoOf(rest, Fold(f.name, caseless), caseless) == f.ino == InoOf(live, Fold(f.name, caseless), caseless)
    {
      InoIs(live, f, caseless);
      InoIs(rest, f, caseless);
    }
  }

  lemma InoIs(live: set<Entry>, e: Entry, caseless: bool)
    requires Unique(live, caseless) && e in live
    ensures InoOf(live, Fold(e.name, caseless), caseless) == e.ino
  {
  }

  lemma NowhereFits(blocks: seq<Block>, n: nat, k: nat)
    requires k >= |blocks| && NoFitBefore(blocks, n, k, 0)
    ensures !AnyFits(blocks, n)
  {
    forall j: nat, m: nat | At(blocks, j, m)
      ensures !Fits(blocks[j][m], n)
    {
      assert Before(j, m, k, 0);
    }
  }

  lemma SomeFits(blocks: seq<Block>, n: nat, k: nat, i: nat)
    requires At(blocks, k, i) && Fits(blocks[k][i], n)
    ensures AnyFits(blocks, n)
  {
  }

  /** A name a search does not find the scan for room does not meet. */
  lemma UnfoundUnmet(blocks: seq<Block>, name: string, caseless: bool)
    requires Answer(blocks, name, caseless) == 0
    ensures !MatchFirst(blocks, Cut(name), caseless)
  {
    hide NoFitBefore;
    forall k: nat, i: nat | At(blocks, k, i)
      ensures !Matches(Cut(name), blocks[k][i], caseless)
    {
      NotFoundNowhere(blocks, Cut(name), caseless, k, i);
    }
  }

  lemma {:induction false} NotFoundNowhere(blocks: seq<Block>, name: string, caseless: bool, k: nat, i: nat)
    requires FirstMatch(Flat(blocks), name, caseless) == 0 && At(blocks, k, i)
    ensures !Matches(name, blocks[k][i], caseless)
  {
    NoneIn(blocks[0], Flat(blocks[1..]), name, caseless, if k == 0 then i else 0);
    if k > 0 {
      NotFoundNowhere(blocks[1..], name, caseless, k - 1, i);
    }
  }

  lemma {:induction false} NoneIn(b: seq<Rec>, rest: seq<Rec>, name: string, caseless: bool, i: nat)
    requires FirstMatch(b + rest, name, caseless) == 0
    ensures FirstMatch(rest, name, caseless) == 0 && (i < |b| ==> !Matches(name, b[i], caseless))
  {
    if b == [] {
      assert b + rest == rest;
    } else {
      assert (b + rest)[1..] == b[1..] + rest && (b + rest)[0] == b[0];
      NoneIn(b[1..], rest, name, caseless, if i > 0 then i - 1 else 0);
    }
  }

  lemma NowhereNoMatch(blocks: seq<Block>, name: string, caseless: bool, k: nat)
    requires k >= |blocks| && NoMatchBefore(blocks, name, caseless, k, 0)
    ensures !MatchFirst(blocks, name, caseless)
  {
    forall j: nat, m: nat | At(blocks, j, m)
      ensures !Matches(name, blocks[j][m], caseless)
    {
      assert Before(j, m, k, 0);
    }
  }

  /** Merging a live record away takes its entry, and only that. */
  lemma Deleted(blocks: seq<Block>, blockSize: nat, inodes: nat, k: nat, i: nat)
    requires AllTile(blocks, blockSize, inodes) && At(blocks, k, i) && blocks[k][i].ino != 0
    ensures var e := Entry(Pos(blocks, blockSize, k, i), blocks[k][i].name, blocks[k][i].ino);
            var left := blocks[k := Merge(blocks[k], i)];
            AllTile(left, blockSize, inodes) && e in Live(blocks) && Live(left) == Live(blocks) - {e}
  {
    hide LiveFrom, Size, Merge;
    var b := blocks[k];
    AllSizes(blocks, blockSize, inodes);
    TilesLens(b, blockSize, inodes);
    MergeLive(b, i, k * blockSize);
    MergeTiles(b, i, blockSize, inodes);
    RecordIsLive(blocks, blockSize, inodes, k, i);
    OnlyInBlock(blocks, blockSize, inodes, k, i);
    hide Tiles;
    LiveReplaced(blocks, blockSize, k, Merge(b, i));
  }

  /** The entry of record (k, i) is not among those of the other blocks. */
  lemma OnlyInBlock(blocks: seq<Block>, blockSize: nat, inodes: nat, k: nat, i: nat)
    requires AllTile(blocks, blockSize, inodes) && At(blocks, k, i)
    ensures var e := Entry(Pos(blocks, blockSize, k, i), blocks[k][i].name, blocks[k][i].ino);
            e !in LiveFrom(Flat(blocks[..k]), 0) && e !in LiveFrom(Flat(blocks[k + 1..]), k * blockSize + blockSize)
  {
    var e := Entry(Pos(blocks, blockSize, k, i), blocks[k][i].name, blocks[k][i].ino);
    AllSizes(blocks, blockSize, inodes);
    FlatSize(blocks[..k], blockSize);
    FlatLens(blocks[..k], blockSize, inodes);
    FlatLens(blocks[k + 1..], blockSize, inodes);
    NotLive(Flat(blocks[..k]), 0, e);
    NotLive(Flat(blocks[k + 1..]), k * blockSize + blockSize, e);
  }

  lemma {:induction false} FlatLens(blocks: seq<Block>, blockSize: nat, inodes: nat)
    requires AllTile(blocks, blockSize, inodes)
    ensures forall j | 0 <= j < |Flat(blocks)| :: Flat(blocks)[j].len > 0
  {
    if blocks != [] {
      TilesLens(blocks[0], blockSize, inodes);
      FlatLens(blocks[1..], blockSize, inodes);
    }
  }

  lemma FoundIsBound(blocks: seq<Block>, blockSize: nat, inodes: nat, name: string, caseless: bool, k: nat, i: nat)
    requires AllTile(blocks, blockSize, inodes) && At(blocks, k, i) && Matches(name, blocks[k][i], caseless)
    ensures name == "" || Bound(Live(blocks), name, caseless)
  {
    RecordIsLive(blocks, blockSize, inodes, k, i);
  }

  /** A new live entry keeps names unique exactly when its name was not bound. */
  lemma AddKeepsUnique(live: set<Entry>, e: Entry, caseless: bool)
    requires Unique(live, caseless)
    ensures e !in live ==> (Unique(live + {e}, caseless) <==> !Bound(live, e.name, caseless))
    ensures !Bound(live, e.name, caseless) ==> Unique(live + {e}, caseless)
  {
    if Bound(live, e.name, caseless) {
      var f :| f in live && Fold(f.name, caseless) == Fold(e.name, caseless);
      assert f in live + {e} && e in live + {e};
    }
  }

  /** ext2_create adds without searching first. AddEntry then refuses a bound name only when
      the scan meets the name before a record it fits in: here a free record comes first, and
      the name would be bound twice. */
  lemma AddAloneMayRepeat(blockSize: nat, inodes: nat)
    requires blockSize >= RecLen(NAME_LEN) && blockSize % 4 == 0 && inodes >= 1
    ensures var blocks := [[Rec(0, 12, "b"), Rec(1, blockSize - 12, "a")]];
            && AllTile(blocks, blockSize, inodes) && Unique(Live(blocks), false)
            && Bound(Live(blocks), "a", false) && !MatchFirst(blocks, "a", false)
  {
    var b := [Rec(0, 12, "b"), Rec(1, blockSize - 12, "a")];
    TwoRecords(b[0], b[1], 0);
    TilesIf(b, blockSize, inodes);
    OneRecord(b[0], 0);
    OneRecord(b[1], 12);
    assert Flat([b]) == b by { assert [b][1..] == []; }
    assert Live([b]) == {Entry(12, "a", 1)};
    FitStopsScan([b], "a", false, 0, 0);
  }
}
