/** The buffer cache: heads on hash chains, lists by state and free lists, recycled under the
    feet of its users, who see a flat array of blocks. */
module BufferCache {
  import opened Geometry
  import opened Lists

  const NODEV: nat := 0xffff
  const CLEAN: nat := 0
  const UNSHARED: nat := 1
  const LOCKED: nat := 2
  const LOCKED1: nat := 3
  const DIRTY: nat := 4
  const SHARED: nat := 5
  const NR_LIST: nat := 6
  const NR_SIZES: nat := 4
  const PAGE_SIZE: nat := 4096
  const UINT_MAX: nat := 0xffffffff

  type Data = seq<bv8>

  datatype Io = Idle | Reading | Writing

  /** A buffer head. Its size is an index, 0 for 512 bytes up to 3 for 4096. */
  datatype Head = Head(dev: nat, block: nat, size: nat, count: nat, dirt: bool, io: Io, uptodate: bool,
                       list: nat, time: nat, data: Data, page: nat)

  type Heads = map<nat, Head>

  /** The lists and hash chains, front first, and the counters kept beside them. */
  datatype Queues = Queues(lru: seq<seq<nat>>, free: seq<seq<nat>>, chains: seq<seq<nat>>,
                           nrType: seq<int>, nrFree: seq<int>, nrSt: seq<seq<int>>)

  function Queue(dev: nat, block: nat, n: Pos): (q: nat)
    ensures q < n
  {
    BitXor(dev, block) % n
  }

  predicate Hashed(heads: Heads, b: nat) {
    b in heads && heads[b].dev != NODEV
  }

  // ----- where a head belongs

  function LruPlace(heads: Heads, out: set<nat>): map<nat, nat> {
    map b | b in heads && b !in out && heads[b].dev != NODEV :: heads[b].list
  }

  function FreePlace(heads: Heads, out: set<nat>): map<nat, nat> {
    map b | b in heads && b !in out && heads[b].dev == NODEV :: heads[b].size
  }

  function ChainPlace(heads: Heads, out: set<nat>, n: Pos): map<nat, nat> {
    map b | b in heads && b !in out && heads[b].dev != NODEV :: Queue(heads[b].dev, heads[b].block, n)
  }

  /** How many heads on a list have one size. */
  function CountSize(list: seq<nat>, heads: Heads, s: nat): nat {
    if list == [] then 0
    else (if list[0] in heads && heads[list[0]].size == s then 1 else 0) + CountSize(list[1..], heads, s)
  }

  /** Every head not taken out is on its lru list and hash chain, or on its free list, and the
      counters are exact. */
  ghost predicate Linked(heads: Heads, q: Queues, out: set<nat>) {
    && |q.lru| == NR_LIST && |q.free| == NR_SIZES && |q.chains| > 0
    && |q.nrType| == NR_LIST && |q.nrFree| == NR_SIZES && |q.nrSt| == NR_SIZES
    && (forall b | b in heads :: heads[b].size < NR_SIZES && heads[b].list < NR_LIST)
    && Placed(q.lru, LruPlace(heads, out))
    && Placed(q.free, FreePlace(heads, out))
    && Placed(q.chains, ChainPlace(heads, out, |q.chains|))
    && (forall i | 0 <= i < NR_LIST :: q.nrType[i] == |q.lru[i]|)
    && (forall s | 0 <= s < NR_SIZES :: q.nrFree[s] == |q.free[s]| && |q.nrSt[s]| == NR_LIST)
    && (forall s, i {:trigger q.nrSt[s][i]} | 0 <= s < NR_SIZES && 0 <= i < NR_LIST :: q.nrSt[s][i] == CountSize(q.lru[i], heads, s))
  }

  // ----- counting

  lemma {:induction false} CountWithout(list: seq<nat>, heads: Heads, s: nat, b: nat)
    requires Distinct(list) && b in list && b in heads
    ensures CountSize(Without(list, b), heads, s) == CountSize(list, heads, s) - (if heads[b].size == s then 1 else 0)
  {
    if list[0] == b {
      WithoutNone(list[1..], b);
    } else {
      CountWithout(list[1..], heads, s, b);
      assert Without(list, b)[1..] == Without(list[1..], b);
    }
  }

  lemma {:induction false} CountAppend(list: seq<nat>, heads: Heads, s: nat, b: nat)
    requires b in heads
    ensures CountSize(list + [b], heads, s) == CountSize(list, heads, s) + (if heads[b].size == s then 1 else 0)
  {
    if list == [] {
      assert ([b])[1..] == [];
    } else {
      CountAppend(list[1..], heads, s, b);
      assert (list + [b])[1..] == list[1..] + [b];
    }
  }

  lemma {:induction false} CountSame(list: seq<nat>, heads: Heads, more: Heads, s: nat)
    requires forall b | b in list :: b in heads && b in more && heads[b].size == more[b].size
    ensures CountSize(list, more, s) == CountSize(list, heads, s)
  {
    if list != [] {
      CountSame(list[1..], heads, more, s);
    }
  }

  // ----- taking a head off its lists and putting it back

  function Detached(heads: Heads, q: Queues, b: nat): Queues
    requires Linked(heads, q, {}) && b in heads
  {
    var h := heads[b];
    if h.dev == NODEV then
      q.(free := q.free[h.size := Without(q.free[h.size], b)], nrFree := q.nrFree[h.size := q.nrFree[h.size] - 1])
    else
      var k := Queue(h.dev, h.block, |q.chains|);
      q.(lru := q.lru[h.list := Without(q.lru[h.list], b)],
         chains := q.chains[k := Without(q.chains[k], b)],
         nrType := q.nrType[h.list := q.nrType[h.list] - 1],
         nrSt := q.nrSt[h.size := q.nrSt[h.size][h.list := q.nrSt[h.size][h.list] - 1]])
  }

  function Attached(heads: Heads, q: Queues, b: nat): Queues
    requires Linked(heads, q, {b}) && b in heads
  {
    var h := heads[b];
    if h.dev == NODEV then
      q.(free := q.free[h.size := q.free[h.size] + [b]], nrFree := q.nrFree[h.size := q.nrFree[h.size] + 1])
    else
      var k := Queue(h.dev, h.block, |q.chains|);
      q.(lru := q.lru[h.list := q.lru[h.list] + [b]],
         chains := q.chains[k := [b] + q.chains[k]],
         nrType := q.nrType[h.list := q.nrType[h.list] + 1],
         nrSt := q.nrSt[h.size := q.nrSt[h.size][h.list := q.nrSt[h.size][h.list] + 1]])
  }

  lemma DetachedLinked(heads: Heads, q: Queues, b: nat)
    requires Linked(heads, q, {}) && b in heads
    ensures Linked(heads, Detached(heads, q, b), {b})
  {
    hide Queue, CountSize, Without, Distinct, Placed;
    var h, r, n := heads[b], Detached(heads, q, b), |q.chains|;
    assert LruPlace(heads, {}) - {b} == LruPlace(heads, {b});
    assert FreePlace(heads, {}) - {b} == FreePlace(heads, {b});
    assert ChainPlace(heads, {}, n) - {b} == ChainPlace(heads, {b}, n);
    if h.dev == NODEV {
      PlacedRemoves(q.free, FreePlace(heads, {}), b);
      assert LruPlace(heads, {}) == LruPlace(heads, {b}) && ChainPlace(heads, {}, n) == ChainPlace(heads, {b}, n);
    } else {
      PlacedRemoves(q.lru, LruPlace(heads, {}), b);
      PlacedRemoves(q.chains, ChainPlace(heads, {}, n), b);
      assert FreePlace(heads, {}) == FreePlace(heads, {b});
      PlacedOnce(q.lru, LruPlace(heads, {}), b);
      forall s | 0 <= s < NR_SIZES
        ensures r.nrSt[s][h.list] == CountSize(r.lru[h.list], heads, s)
      {
        CountWithout(q.lru[h.list], heads, s, b);
      }
    }
  }

  lemma PlacedOnce(lists: seq<seq<nat>>, place: map<nat, nat>, b: nat)
    requires Placed(lists, place) && b in place
    ensures Distinct(lists[place[b]]) && b in lists[place[b]]
  {
  }

  lemma AttachedLinked(heads: Heads, q: Queues, b: nat)
    requires Linked(heads, q, {b}) && b in heads
    ensures Linked(heads, Attached(heads, q, b), {})
  {
    hide Queue, CountSize, Without, Distinct, Placed;
    var h, r, n := heads[b], Attached(heads, q, b), |q.chains|;
    if h.dev == NODEV {
      PlacedAppends(q.free, FreePlace(heads, {b}), b, h.size);
      assert LruPlace(heads, {}) == LruPlace(heads, {b}) && ChainPlace(heads, {}, n) == ChainPlace(heads, {b}, n);
      assert FreePlace(heads, {b})[b := h.size] == FreePlace(heads, {});
    } else {
      var k := Queue(h.dev, h.block, n);
      PlacedAppends(q.lru, LruPlace(heads, {b}), b, h.list);
      PlacedPrepends(q.chains, ChainPlace(heads, {b}, n), b, k);
      assert FreePlace(heads, {}) == FreePlace(heads, {b});
      assert LruPlace(heads, {b})[b := h.list] == LruPlace(heads, {});
      assert ChainPlace(heads, {b}, n)[b := k] == ChainPlace(heads, {}, n);
      forall s | 0 <= s < NR_SIZES
        ensures r.nrSt[s][h.list] == CountSize(r.lru[h.list], heads, s)
      {
        CountAppend(q.lru[h.list], heads, s, b);
      }
    }
  }

  /** A head that is on no list can change, or go, without disturbing the lists. */
  lemma OutChanges(heads: Heads, more: Heads, q: Queues, b: nat)
    requires Linked(heads, q, {b})
    requires forall c | c != b :: (c in more <==> c in heads) && (c in heads ==> more[c] == heads[c])
    requires b in more ==> more[b].size < NR_SIZES && more[b].list < NR_LIST
    ensures Linked(more, q, {b})
    ensures b !in more ==> Linked(more, q, {})
  {
    hide Queue, CountSize, Distinct;
    assert LruPlace(more, {b}) == LruPlace(heads, {b}) && FreePlace(more, {b}) == FreePlace(heads, {b});
    assert ChainPlace(more, {b}, |q.chains|) == ChainPlace(heads, {b}, |q.chains|);
    if b !in more {
      assert LruPlace(more, {b}) == LruPlace(more, {}) && FreePlace(more, {b}) == FreePlace(more, {});
      assert ChainPlace(more, {b}, |q.chains|) == ChainPlace(more, {}, |q.chains|);
    }
    forall s, i | 0 <= s < NR_SIZES && 0 <= i < NR_LIST
      ensures q.nrSt[s][i] == CountSize(q.lru[i], more, s)
    {
      CountSame(q.lru[i], heads, more, s);
    }
  }

  /** Fields the lists do not depend on may change anywhere. */
  lemma SamePlaces(heads: Heads, more: Heads, q: Queues)
    requires Linked(heads, q, {}) && more.Keys == heads.Keys
    requires forall c | c in heads ::
               && more[c].dev == heads[c].dev && more[c].block == heads[c].block
               && more[c].size == heads[c].size && more[c].list == heads[c].list
    ensures Linked(more, q, {})
  {
    hide Queue, CountSize, Distinct;
    assert LruPlace(more, {}) == LruPlace(heads, {}) && FreePlace(more, {}) == FreePlace(heads, {});
    assert ChainPlace(more, {}, |q.chains|) == ChainPlace(heads, {}, |q.chains|);
    forall s, i | 0 <= s < NR_SIZES && 0 <= i < NR_LIST
      ensures q.nrSt[s][i] == CountSize(q.lru[i], more, s)
    {
      CountSame(q.lru[i], heads, more, s);
    }
  }

  /** A head that does not exist yet is on no list. */
  lemma NotYetLinked(heads: Heads, q: Queues, b: nat)
    requires Linked(heads, q, {}) && b !in heads
    ensures Linked(heads, q, {b})
  {
    hide Queue, CountSize, Distinct, Placed;
    assert LruPlace(heads, {b}) == LruPlace(heads, {}) && FreePlace(heads, {b}) == FreePlace(heads, {});
    assert ChainPlace(heads, {b}, |q.chains|) == ChainPlace(heads, {}, |q.chains|);
  }

  lemma LastLinked(heads: Heads, q: Queues, b: nat)
    requires Linked(heads, q, {}) && Hashed(heads, b)
    ensures Linked(heads, q.(lru := q.lru[heads[b].list := ToEnd(q.lru[heads[b].list], b)]), {})
  {
    hide Queue, CountSize, Placed, Distinct;
    var i := heads[b].list;
    PlacedUses(q.lru, LruPlace(heads, {}), b);
    PlacedOnce(q.lru, LruPlace(heads, {}), b);
    WithoutDistinct(q.lru[i], b);
    forall s | 0 <= s < NR_SIZES
      ensures CountSize(ToEnd(q.lru[i], b), heads, s) == CountSize(q.lru[i], heads, s)
    {
      CountWithout(q.lru[i], heads, s, b);
      CountAppend(Without(q.lru[i], b), heads, s, b);
    }
  }

  // ----- the flat array behind the cache

  type Disk = map<(nat, nat), Data>

  function At(m: Disk, dev: nat, block: nat): Data {
    if (dev, block) in m then m[(dev, block)] else []
  }

  /** The newest contents of the block may still be only in this buffer. */
  predicate Pending(h: Head) {
    h.dirt || h.io == Writing
  }

  /** What each head may be: free heads are idle, a buffer in transfer is neither dirty nor up to
      date, a dirty one is up to date, and a device has one block size. */
  predicate HeadOk(h: Head, sizes: map<nat, nat>) {
    && (h.dev == NODEV ==> h.count == 0 && !h.dirt && h.io == Idle)
    && (h.dev != NODEV ==> h.dev in sizes && h.size == sizes[h.dev])
    && (h.io != Idle ==> !h.dirt && !h.uptodate) && (h.dirt ==> h.uptodate)
  }

  ghost predicate Unique(heads: Heads) {
    forall a, b | Hashed(heads, a) && Hashed(heads, b) && heads[a].dev == heads[b].dev && heads[a].block == heads[b].block :: a == b
  }

  ghost predicate PendingAt(heads: Heads, dev: nat, block: nat) {
    exists b :: Hashed(heads, b) && heads[b].dev == dev && heads[b].block == block && Pending(heads[b])
  }

  /** A buffer that is up to date or being written shows the flat array; the disk shows it except
      where newer contents are pending. */
  ghost predicate Coherent(heads: Heads, disk: Disk, flat: Disk) {
    && (forall b | Hashed(heads, b) && (heads[b].uptodate || heads[b].io == Writing) ::
          heads[b].data == At(flat, heads[b].dev, heads[b].block))
    && (forall d, k :: PendingAt(heads, d, k) || At(disk, d, k) == At(flat, d, k))
  }

  ghost predicate HeadsOk(heads: Heads, sizes: map<nat, nat>) {
    forall b | b in heads :: HeadOk(heads[b], sizes)
  }

  /** Heads that change only in fields that do not concern contents. */
  ghost predicate SameContents(heads: Heads, more: Heads) {
    && more.Keys == heads.Keys
    && forall b | b in heads ::
         && more[b].dev == heads[b].dev && more[b].block == heads[b].block && more[b].dirt == heads[b].dirt
         && more[b].io == heads[b].io && more[b].uptodate == heads[b].uptodate && more[b].data == heads[b].data
  }

  lemma SameCoherent(heads: Heads, more: Heads, disk: Disk, flat: Disk)
    requires SameContents(heads, more) && Coherent(heads, disk, flat)
    ensures Coherent(more, disk, flat)
  {
    forall d, k | PendingAt(heads, d, k)
      ensures PendingAt(more, d, k)
    {
      var b :| Hashed(heads, b) && heads[b].dev == d && heads[b].block == k && Pending(heads[b]);
      assert Hashed(more, b);
    }
  }

  /** A head with nothing pending may be freed, or taken for another block, or go. */
  lemma FreedCoherent(heads: Heads, more: Heads, disk: Disk, flat: Disk, b: nat)
    requires Coherent(heads, disk, flat) && b in heads && !Pending(heads[b])
    requires forall c | c != b :: (c in more <==> c in heads) && (c in heads ==> more[c] == heads[c])
    requires Hashed(more, b) ==> !more[b].uptodate && more[b].io != Writing
    ensures Coherent(more, disk, flat)
  {
    forall d, k | PendingAt(heads, d, k)
      ensures PendingAt(more, d, k)
    {
      var c :| Hashed(heads, c) && heads[c].dev == d && heads[c].block == k && Pending(heads[c]);
      assert Hashed(more, c);
    }
  }

  /** A buffer gets new contents, and is dirty. */
  lemma StoredOk(heads: Heads, sizes: map<nat, nat>, b: nat, data: Data)
    requires HeadsOk(heads, sizes) && b in heads && heads[b].count > 0 && heads[b].io == Idle
    ensures HeadsOk(heads[b := heads[b].(data := data, dirt := true, uptodate := true)], sizes)
  {
  }

  lemma StoredCoherent(heads: Heads, disk: Disk, flat: Disk, b: nat, data: Data)
    requires Coherent(heads, disk, flat) && Unique(heads) && Hashed(heads, b)
    ensures var h := heads[b].(data := data, dirt := true, uptodate := true);
            Coherent(heads[b := h], disk, flat[(heads[b].dev, heads[b].block) := data])
  {
    var h := heads[b].(data := data, dirt := true, uptodate := true);
    var more, f := heads[b := h], flat[(h.dev, h.block) := data];
    assert Hashed(more, b);
    assert PendingAt(more, h.dev, h.block);
    forall d, k
      ensures PendingAt(more, d, k) || At(disk, d, k) == At(f, d, k)
    {
      if PendingAt(heads, d, k) {
        var c :| Hashed(heads, c) && heads[c].dev == d && heads[c].block == k && Pending(heads[c]);
        assert Hashed(more, c);
      }
    }
    forall c | Hashed(more, c) && (more[c].uptodate || more[c].io == Writing)
      ensures more[c].data == At(f, more[c].dev, more[c].block)
    {
      assert Hashed(heads, c);
    }
  }

  /** A transfer starts: the buffer keeps what is pending until it is done. */
  lemma StartedCoherent(heads: Heads, disk: Disk, flat: Disk, b: nat, io: Io)
    requires Coherent(heads, disk, flat) && Hashed(heads, b) && heads[b].io == Idle && io != Idle
    requires if io == Writing then heads[b].uptodate else !heads[b].dirt
    ensures Coherent(heads[b := heads[b].(io := io, uptodate := false, dirt := false)], disk, flat)
  {
    var more := heads[b := heads[b].(io := io, uptodate := false, dirt := false)];
    forall d, k | PendingAt(heads, d, k)
      ensures PendingAt(more, d, k)
    {
      var c :| Hashed(heads, c) && heads[c].dev == d && heads[c].block == k && Pending(heads[c]);
      assert Hashed(more, c);
    }
    forall c | Hashed(more, c) && (more[c].uptodate || more[c].io == Writing)
      ensures more[c].data == At(flat, more[c].dev, more[c].block)
    {
      assert Hashed(heads, c);
    }
  }

  /** A write is done: the disk has the contents. */
  lemma WrittenCoherent(heads: Heads, disk: Disk, flat: Disk, b: nat)
    requires Coherent(heads, disk, flat) && Unique(heads) && Hashed(heads, b) && heads[b].io == Writing
    ensures var h := heads[b];
            Coherent(heads[b := h.(io := Idle, uptodate := true)], disk[(h.dev, h.block) := h.data], flat)
  {
    var h := heads[b];
    var more, m := heads[b := h.(io := Idle, uptodate := true)], disk[(h.dev, h.block) := h.data];
    forall d, k
      ensures PendingAt(more, d, k) || At(m, d, k) == At(flat, d, k)
    {
      if PendingAt(heads, d, k) && (d, k) != (h.dev, h.block) {
        var c :| Hashed(heads, c) && heads[c].dev == d && heads[c].block == k && Pending(heads[c]);
        assert Hashed(more, c);
      }
    }
    forall c | Hashed(more, c) && (more[c].uptodate || more[c].io == Writing)
      ensures more[c].data == At(flat, more[c].dev, more[c].block)
    {
      assert Hashed(heads, c);
    }
  }

  /** A read is done: nothing newer was pending, so the disk had the contents. */
  lemma ReadCoherent(heads: Heads, disk: Disk, flat: Disk, b: nat)
    requires Coherent(heads, disk, flat) && Unique(heads) && Hashed(heads, b) && heads[b].io == Reading && !heads[b].dirt
    ensures var h := heads[b];
            Coherent(heads[b := h.(io := Idle, uptodate := true, data := At(disk, h.dev, h.block))], disk, flat)
  {
    var h := heads[b];
    var more := heads[b := h.(io := Idle, uptodate := true, data := At(disk, h.dev, h.block))];
    assert !PendingAt(heads, h.dev, h.block);
    forall d, k | PendingAt(heads, d, k)
      ensures PendingAt(more, d, k)
    {
      var c :| Hashed(heads, c) && heads[c].dev == d && heads[c].block == k && Pending(heads[c]);
      assert Hashed(more, c);
    }
    forall c | Hashed(more, c) && (more[c].uptodate || more[c].io == Writing)
      ensures more[c].data == At(flat, more[c].dev, more[c].block)
    {
      assert Hashed(heads, c);
    }
  }

  // ----- the cache

  /** Someone relies on the buffer as it is. */
  predicate InUse(h: Head) {
    h.count > 0 || Pending(h) || h.io != Idle
  }

  /** No buffer in use is recycled or loses anything. */
  ghost predicate Kept(was: Heads, now: Heads) {
    forall b {:trigger was[b]} | b in was && InUse(was[b]) ::
      b in now && now[b] == was[b].(list := now[b].list, time := now[b].time)
  }

  /** The heads of a page are the ones on its ring. */
  /** The buffers of one page have one size. */
  ghost predicate OneSize(heads: Heads) {
    forall b, c | b in heads && c in heads && heads[b].page == heads[c].page :: heads[b].size == heads[c].size
  }

  ghost predicate PagesOk(heads: Heads, pages: map<nat, seq<nat>>) {
    Rings(heads, pages) && OneSize(heads)
  }

  /** The ring of a page has exactly its buffers. */
  ghost predicate Rings(heads: Heads, pages: map<nat, seq<nat>>) {
    && (forall b | b in heads :: heads[b].page in pages)
    && forall p {:trigger pages[p]} | p in pages :: Distinct(pages[p]) && forall b :: b in pages[p] <==> b in heads && heads[b].page == p
  }

  lemma PagesSame(heads: Heads, more: Heads, pages: map<nat, seq<nat>>)
    requires PagesOk(heads, pages) && more.Keys == heads.Keys
    requires forall b | b in heads :: more[b].page == heads[b].page && more[b].size == heads[b].size
    ensures PagesOk(more, pages)
  {
  }

  function NoQueues(n: nat): Queues {
    Queues(seq(NR_LIST, i => []), seq(NR_SIZES, i => []), seq(n, i => []),
           [0, 0, 0, 0, 0, 0], [0, 0, 0, 0], seq(NR_SIZES, i => [0, 0, 0, 0, 0, 0]))
  }

  lemma NothingLinked(n: Pos)
    ensures Linked(map[], NoQueues(n), {})
  {
    var q := NoQueues(n);
    assert LruPlace(map[], {}) == map[] && FreePlace(map[], {}) == map[] && ChainPlace(map[], {}, n) == map[];
    NothingPlaced(q.lru);
    NothingPlaced(q.free);
    NothingPlaced(q.chains);
  }

  lemma NothingPlaced(lists: seq<seq<nat>>)
    requires forall i | 0 <= i < |lists| :: lists[i] == []
    ensures Placed(lists, map[])
  {
  }

  /** Counts, lists and times do not matter to the contents. */
  lemma MetaChanges(heads: Heads, more: Heads, disk: Disk, flat: Disk, sizes: map<nat, nat>, pages: map<nat, seq<nat>>)
    requires HeadsOk(heads, sizes) && Unique(heads) && Coherent(heads, disk, flat) && PagesOk(heads, pages)
    requires SameContents(heads, more)
    requires forall b | b in heads :: more[b].size == heads[b].size && more[b].page == heads[b].page
    requires forall b | b in heads && heads[b].dev == NODEV :: more[b].count == heads[b].count
    ensures HeadsOk(more, sizes) && Unique(more) && Coherent(more, disk, flat) && PagesOk(more, pages) && |more| == |heads|
  {
    hide Coherent;
    SameCoherent(heads, more, disk, flat);
    PagesSame(heads, more, pages);
    forall a, b | Hashed(more, a) && Hashed(more, b) && more[a].dev == more[b].dev && more[a].block == more[b].block
      ensures a == b
    {
      assert Hashed(heads, a) && Hashed(heads, b);
    }
    assert more.Keys == heads.Keys && |more| == |more.Keys| && |heads| == |heads.Keys|;
  }

  /** What a user of a block has: the buffer is held, at rest, and shows the block if up to date. */
  predicate Holding(heads: Heads, flat: Disk, b: nat, dev: nat, block: nat) {
    && Hashed(heads, b) && heads[b].dev == dev && heads[b].block == block
    && heads[b].count > 0 && heads[b].io == Idle
    && (heads[b].uptodate ==> heads[b].data == At(flat, dev, block))
  }

  lemma Shown(heads: Heads, disk: Disk, flat: Disk, b: nat)
    requires Coherent(heads, disk, flat) && Hashed(heads, b) && (heads[b].uptodate || heads[b].io == Writing)
    ensures heads[b].data == At(flat, heads[b].dev, heads[b].block)
  {
  }

  /** One hashed head changes only in state and contents. */
  lemma SameShape(heads: Heads, more: Heads, q: Queues, sizes: map<nat, nat>, pages: map<nat, seq<nat>>)
    requires Linked(heads, q, {}) && Unique(heads) && PagesOk(heads, pages) && more.Keys == heads.Keys
    requires forall b | b in heads ::
               && more[b].dev == heads[b].dev && more[b].block == heads[b].block && more[b].size == heads[b].size
               && more[b].list == heads[b].list && more[b].page == heads[b].page
    ensures Linked(more, q, {}) && Unique(more) && PagesOk(more, pages) && |more| == |heads|
  {
    hide Linked;
    SamePlaces(heads, more, q);
    PagesSame(heads, more, pages);
    forall a, b | Hashed(more, a) && Hashed(more, b) && more[a].dev == more[b].dev && more[a].block == more[b].block
      ensures a == b
    {
      assert Hashed(heads, a) && Hashed(heads, b);
    }
    assert |more| == |more.Keys| && |heads| == |heads.Keys|;
  }

  /** A buffer about to be dropped is not up to date with the block any more. */
  lemma ForgottenCoherent(heads: Heads, disk: Disk, flat: Disk, b: nat)
    requires Coherent(heads, disk, flat) && Unique(heads) && Hashed(heads, b) && heads[b].io == Idle
    ensures var h := heads[b];
            Coherent(heads[b := h.(dirt := false, uptodate := false, count := 0)], disk,
                     flat[(h.dev, h.block) := At(disk, h.dev, h.block)])
  {
    var h := heads[b];
    var more, f := heads[b := h.(dirt := false, uptodate := false, count := 0)], flat[(h.dev, h.block) := At(disk, h.dev, h.block)];
    forall d, k
      ensures PendingAt(more, d, k) || At(disk, d, k) == At(f, d, k)
    {
      if PendingAt(heads, d, k) && (d, k) != (h.dev, h.block) {
        var c :| Hashed(heads, c) && heads[c].dev == d && heads[c].block == k && Pending(heads[c]);
        assert Hashed(more, c);
      }
    }
    forall c | Hashed(more, c) && (more[c].uptodate || more[c].io == Writing)
      ensures more[c].data == At(f, more[c].dev, more[c].block)
    {
      assert Hashed(heads, c) && c != b;
    }
  }

  /** One head less with a block. */
  lemma FreedOk(heads: Heads, more: Heads, disk: Disk, flat: Disk, sizes: map<nat, nat>, b: nat)
    requires HeadsOk(heads, sizes) && Coherent(heads, disk, flat) && Hashed(heads, b) && !InUse(heads[b])
    requires more == heads[b := heads[b].(dev := NODEV)]
    ensures HeadsOk(more, sizes) && Coherent(more, disk, flat) && !Hashed(more, b)
  {
    hide Coherent;
    FreedCoherent(heads, more, disk, flat, b);
  }

  lemma LessHashed(heads: Heads, more: Heads, pages: map<nat, seq<nat>>, b: nat)
    requires Unique(heads) && PagesOk(heads, pages) && b in heads && more == heads[b := heads[b].(dev := NODEV)]
    ensures Unique(more) && PagesOk(more, pages) && |more| == |heads|
  {
    PagesSame(heads, more, pages);
    forall x, y | Hashed(more, x) && Hashed(more, y) && more[x].dev == more[y].dev && more[x].block == more[y].block
      ensures x == y
    {
      assert Hashed(heads, x) && Hashed(heads, y);
    }
    assert more.Keys == heads.Keys && |more| == |more.Keys| && |heads| == |heads.Keys|;
  }

  /** Freeing a hashed head takes it off its list and leaves the other lists alone. */
  lemma FreedLists(heads: Heads, more: Heads, q: Queues, b: nat)
    requires Linked(heads, q, {}) && Hashed(heads, b) && more == heads[b := heads[b].(dev := NODEV)]
    ensures Linked(heads, Detached(heads, q, b), {b}) && Linked(more, Detached(heads, q, b), {b})
    ensures var r := Attached(more, Detached(heads, q, b), b);
            && |r.lru| == NR_LIST && r.lru[heads[b].list] == Without(q.lru[heads[b].list], b)
            && (forall i | 0 <= i < NR_LIST && i != heads[b].list :: r.lru[i] == q.lru[i])
            && heads[b].size < |q.free| && r.free == q.free[heads[b].size := q.free[heads[b].size] + [b]]
  {
    hide Placed, CountSize, Queue, Without;
    DetachedLinked(heads, q, b);
    OutChanges(heads, more, Detached(heads, q, b), b);
  }

  lemma AtRest(h: Head)
    requires h.count == 0 && !h.dirt && h.io == Idle
    ensures !InUse(h)
  {
  }

  lemma HashedIn(heads: Heads, b: nat)
    requires Hashed(heads, b)
    ensures b in heads && heads[b].dev != NODEV
  {
  }

  datatype Option = None | Some(b: nat)

  /** A buffer refill_freelist may take: unreferenced, clean, unlocked and of the right size. */
  predicate Usable(h: Head, size: nat) {
    h.dev != NODEV && !InUse(h) && h.size == size
  }

  /** A locked buffer of the size on a list of locked ones: what is behind it is not looked at. */
  ghost predicate Stops(h: Head, i: nat, size: nat) {
    (i == LOCKED || i == LOCKED1) && !h.dirt && h.count == 0 && h.size == size && h.io != Idle
  }

  /** Position p of list i has a usable buffer that no locked one before it hides. */
  ghost predicate OpenAt(heads: Heads, list: seq<nat>, i: nat, size: nat, p: nat) {
    && p < |list| && list[p] in heads && Usable(heads[list[p]], size)
    && forall q | 0 <= q < p && list[q] in heads :: !Stops(heads[list[q]], i, size)
  }

  /** c, with left - 1 more behind it, is the first open buffer of list i; there is none if c is None. */
  ghost predicate FirstOpen(heads: Heads, list: seq<nat>, c: Option, left: nat, i: nat, size: nat) {
    if c.None? then forall p: nat :: !OpenAt(heads, list, i, size, p)
    else
      && 0 < left <= |list| && list[|list| - left] == c.b && OpenAt(heads, list, i, size, |list| - left)
      && forall q: nat | q < |list| - left :: !OpenAt(heads, list, i, size, q)
  }

  /** The scan of list i has passed all but the last left heads and met neither an open buffer nor
      one that stops it. */
  ghost predicate Passed(heads: Heads, list: seq<nat>, left: nat, i: nat, size: nat) {
    && left <= |list|
    && forall q: nat | q < |list| - left && list[q] in heads :: !Stops(heads[list[q]], i, size) && !OpenAt(heads, list, i, size, q)
  }

  lemma PassedNone(heads: Heads, list: seq<nat>, i: nat, size: nat)
    ensures Passed(heads, list, |list|, i, size)
  {
  }

  /** A head that is dirty, of another size, held, or in transfer on a list that is not of locked ones is passed. */
  lemma PassedOne(heads: Heads, list: seq<nat>, left: nat, i: nat, size: nat)
    requires Passed(heads, list, left, i, size) && left > 0
    requires list[|list| - left] in heads ==>
               var h := heads[list[|list| - left]];
               h.dirt || h.count > 0 || h.size != size || (h.io != Idle && i != LOCKED && i != LOCKED1)
    ensures Passed(heads, list, left - 1, i, size)
  {
  }

  lemma PassedAll(heads: Heads, list: seq<nat>, i: nat, size: nat)
    requires Passed(heads, list, 0, i, size)
    ensures FirstOpen(heads, list, None, 0, i, size)
  {
    forall p: nat
      ensures !OpenAt(heads, list, i, size, p)
    {
      if p < |list| && list[p] in heads {
        assert !OpenAt(heads, list, i, size, p);
      }
    }
  }

  lemma PassedStop(heads: Heads, list: seq<nat>, left: nat, i: nat, size: nat)
    requires Passed(heads, list, left, i, size) && left > 0 && list[|list| - left] in heads
    requires var h := heads[list[|list| - left]];
             (i == LOCKED || i == LOCKED1) && !h.dirt && h.count == 0 && h.size == size && h.io != Idle
    ensures FirstOpen(heads, list, None, 0, i, size)
  {
    forall p: nat
      ensures !OpenAt(heads, list, i, size, p)
    {
      assert p > |list| - left || p == |list| - left || !(list[p] in heads) || !OpenAt(heads, list, i, size, p);
    }
  }

  lemma PassedFound(heads: Heads, list: seq<nat>, left: nat, i: nat, size: nat)
    requires Passed(heads, list, left, i, size) && left > 0 && list[|list| - left] in heads
    requires var h := heads[list[|list| - left]]; h.dev != NODEV && h.count == 0 && !h.dirt && h.io == Idle && h.size == size
    ensures FirstOpen(heads, list, Some(list[|list| - left]), left, i, size)
  {
  }

  /** The last heads of two lists are the same. */
  ghost predicate SameEnd(list: seq<nat>, more: seq<nat>, left: nat) {
    left <= |list| && left <= |more| && list[|list| - left..] == more[|more| - left..]
  }

  /** The candidate of list i is a usable buffer with left - 1 more behind it on the list. */
  ghost predicate CandidateAt(heads: Heads, list: seq<nat>, c: Option, left: nat, i: nat, size: nat) {
    c.Some? ==> 0 < left <= |list| && list[|list| - left] == c.b && c.b in heads && heads[c.b].list == i && Usable(heads[c.b], size)
  }

  /** Only dirty buffers moved. */
  ghost predicate Refiled(was: Heads, now: Heads) {
    && now.Keys == was.Keys
    && forall b | b in was ::
         if was[b].dirt then now[b] == was[b].(list := now[b].list, time := now[b].time) else now[b] == was[b]
  }

  lemma RefiledNot(heads: Heads)
    ensures Refiled(heads, heads)
  {
  }

  lemma RefiledOne(was: Heads, mid: Heads, now: Heads, b: nat)
    requires Refiled(was, mid) && b in mid && mid[b].dirt && b in now
    requires now == mid[b := mid[b].(list := now[b].list, time := now[b].time)]
    ensures Refiled(was, now)
  {
  }

  /** What is on list i is hashed and belongs there. */
  lemma OnList(heads: Heads, q: Queues, i: nat, at: nat)
    requires Linked(heads, q, {}) && i < NR_LIST && |q.lru| == NR_LIST && at < |q.lru[i]|
    ensures Hashed(heads, q.lru[i][at]) && q.lru[i][at] in heads && heads[q.lru[i][at]].list == i && Distinct(q.lru[i])
    ensures heads[q.lru[i][at]].dev != NODEV
  {
    hide CountSize, Queue;
    assert q.lru[i][at] in q.lru[i];
  }

  lemma OffList(list: seq<nat>, at: nat)
    requires Distinct(list) && at < |list|
    ensures |Without(list, list[at])| == |list| - 1
    ensures forall k | at <= k < |list| - 1 :: Without(list, list[at])[k] == list[k + 1]
  {
    WithoutAt(list, at);
  }

  lemma CandidateFound(heads: Heads, list: seq<nat>, b: nat, left: nat, i: nat, size: nat)
    requires b in heads && heads[b].dev != NODEV && heads[b].count == 0 && !heads[b].dirt && heads[b].io == Idle
    requires heads[b].size == size && heads[b].list == i && 0 < left <= |list| && list[|list| - left] == b
    ensures CandidateAt(heads, list, Some(b), left, i, size)
  {
  }

  lemma NoCandidate(heads: Heads, list: seq<nat>, i: nat, size: nat)
    ensures CandidateAt(heads, list, None, 0, i, size)
  {
  }

  /** A dirty head stays dirty, a clean one is as it was. */
  lemma RefiledAt(was: Heads, now: Heads, b: nat)
    requires Refiled(was, now) && b in now
    ensures b in was && now[b] == was[b].(list := now[b].list, time := now[b].time) && (!was[b].dirt ==> now[b] == was[b])
  {
  }

  lemma EndOf(list: seq<nat>, n: nat)
    requires n <= |list|
    ensures SameEnd(list[|list| - n..], list, n)
  {
  }

  lemma EndNone(list: seq<nat>, more: seq<nat>)
    ensures SameEnd(list, more, 0)
  {
  }

  lemma EndIs(list: seq<nat>, more: seq<nat>, left: nat)
    requires SameEnd(list, more, left)
    ensures left <= |list| && left <= |more| && (left > 0 ==> list[|list| - left] == more[|more| - left])
  {
    if left > 0 {
      assert list[|list| - left..][0] == more[|more| - left..][0];
    }
  }

  lemma EndLess(list: seq<nat>, more: seq<nat>, left: nat)
    requires SameEnd(list, more, left) && left > 0
    ensures SameEnd(list, more, left - 1)
  {
    assert list[|list| - left..][1..] == list[|list| - (left - 1)..];
    assert more[|more| - left..][1..] == more[|more| - (left - 1)..];
  }

  /** The head before the end of the list goes. */
  lemma EndWithout(list: seq<nat>, more: seq<nat>, less: seq<nat>, left: nat)
    requires SameEnd(list, more, left) && left > 0 && Distinct(more) && less == Without(more, more[|more| - left])
    ensures SameEnd(list, less, left - 1)
  {
    EndLess(list, more, left);
    OffList(more, |more| - left);
    assert less[|less| - (left - 1)..] == more[|more| - (left - 1)..];
  }

  lemma EndThrough(list: seq<nat>, rest: seq<nat>, more: seq<nat>, n: nat, left: nat)
    requires n <= |list| && rest == list[|list| - n..] && SameEnd(rest, more, left)
    ensures SameEnd(list, more, left)
  {
    assert rest[|rest| - left..] == list[|list| - left..];
  }

  // ----- the election

  /** The lists up to the n-th have been scanned, the others are as they were. */
  ghost predicate StandingTo(first: Heads, lists: seq<seq<nat>>, lru: seq<seq<nat>>, cands: seq<Option>, lefts: seq<nat>,
                             size: nat, n: nat) {
    && |lists| == |lru| == |cands| == |lefts| == NR_LIST
    && forall i: nat | Elects(i) ::
         if i < n then Standing(first, lists[i], [], lru[i], cands[i], lefts[i], i, size) else lru[i] == lists[i]
  }

  lemma StandingNone(heads: Heads, lru: seq<seq<nat>>, cands: seq<Option>, lefts: seq<nat>, size: nat)
    requires |lru| == |cands| == |lefts| == NR_LIST
    ensures StandingTo(heads, lru, lru, cands, lefts, size, 0)
  {
  }

  lemma StandingNext(first: Heads, was: Heads, lists: seq<seq<nat>>, lru: seq<seq<nat>>, more: seq<seq<nat>>, cands: seq<Option>,
                     lefts: seq<nat>, size: nat, i: nat, c: Option, left: nat)
    requires StandingTo(first, lists, lru, cands, lefts, size, i) && Elects(i) && |more| == NR_LIST && Refiled(first, was)
    requires forall j | 0 <= j < NR_LIST && j != i && j != DIRTY :: more[j] == lru[j]
    requires FirstOpen(was, lru[i][|lru[i]| - |lru[i]|..], c, left, i, size) && SameEnd(lru[i], more[i], left)
    ensures StandingTo(first, lists, more, cands[i := c], lefts[i := left], size, i + 1)
  {
    hide Standing, SameEnd;
    assert lru[i][0..] == lru[i];
    FirstStands(first, was, lru[i], c, left, i, size, more[i]);
  }

  lemma StandingSkip(first: Heads, lists: seq<seq<nat>>, lru: seq<seq<nat>>, cands: seq<Option>, lefts: seq<nat>, size: nat, i: nat)
    requires StandingTo(first, lists, lru, cands, lefts, size, i) && i < NR_LIST && (Elects(i) ==> lru[i] == [])
    ensures StandingTo(first, lists, lru, cands[i := None], lefts[i := 0], size, i + 1)
  {
  }

  lemma StandingAll(first: Heads, lists: seq<seq<nat>>, lru: seq<seq<nat>>, cands: seq<Option>, lefts: seq<nat>, size: nat)
    requires StandingTo(first, lists, lru, cands, lefts, size, NR_LIST)
    ensures AllStanding(first, lists, [], lru, cands, lefts, size)
  {
    hide Standing;
  }

  /** The lists refill_freelist takes from. */
  ghost predicate Elects(i: nat) {
    i < NR_LIST && i != DIRTY && i != SHARED
  }

  lemma ElectsIs()
    ensures forall i: nat :: Elects(i) <==> i < NR_LIST && i != DIRTY && i != SHARED
  {
  }

  /** b is at position p of list i and is its first open buffer not yet taken. */
  ghost predicate LeftAt(heads: Heads, list: seq<nat>, i: nat, size: nat, taken: seq<nat>, b: nat, p: nat) {
    && OpenAt(heads, list, i, size, p) && list[p] == b && b !in taken
    && forall q: nat | q < p && OpenAt(heads, list, i, size, q) :: list[q] in taken
  }

  ghost predicate FirstLeft(heads: Heads, list: seq<nat>, i: nat, size: nat, taken: seq<nat>, b: nat) {
    exists p: nat :: LeftAt(heads, list, i, size, taken, b, p)
  }

  /** b is the first one left on list i, and was used no later than the first one left on any list, and
      before those of earlier lists. */
  ghost predicate ElectedFrom(heads: Heads, lru: seq<seq<nat>>, size: nat, taken: seq<nat>, b: nat, i: nat)
    requires |lru| == NR_LIST
  {
    && Elects(i) && FirstLeft(heads, lru[i], i, size, taken, b) && b in heads && heads[b].time < UINT_MAX
    && forall j: nat, c: nat | Elects(j) && FirstLeft(heads, lru[j], j, size, taken, c) ::
         c in heads && heads[b].time <= heads[c].time && (j < i ==> heads[b].time < heads[c].time)
  }

  ghost predicate Elected(heads: Heads, lru: seq<seq<nat>>, size: nat, taken: seq<nat>, b: nat)
    requires |lru| == NR_LIST
  {
    exists i: nat :: ElectedFrom(heads, lru, size, taken, b, i)
  }

  /** Each buffer taken was elected among those left by the ones before it. */
  ghost predicate Elections(heads: Heads, lru: seq<seq<nat>>, size: nat, taken: seq<nat>)
    requires |lru| == NR_LIST
  {
    forall n | 0 <= n < |taken| :: Elected(heads, lru, size, taken[..n], taken[n])
  }

  /** No list has a buffer left that can win. */
  ghost predicate NoneLeft(heads: Heads, lru: seq<seq<nat>>, size: nat, taken: seq<nat>)
    requires |lru| == NR_LIST
  {
    forall j: nat, c: nat | Elects(j) && FirstLeft(heads, lru[j], j, size, taken, c) :: c in heads && heads[c].time >= UINT_MAX
  }

  /** Some list has a buffer of the size that can be taken: unreferenced, clean, unlocked, and not
      behind a locked one. */
  ghost predicate Offers(heads: Heads, lru: seq<seq<nat>>, size: nat) {
    |lru| == NR_LIST && !NoneLeft(heads, lru, size, [])
  }

  /** Buffers of one size that are free, or can be taken, have not gone. */
  ghost predicate Spared(was: Heads, q: Queues, now: Heads, r: Queues, size: nat) {
    && size < |q.free| == |r.free| && r.free[size] == q.free[size]
    && (Offers(was, q.lru, size) ==> Offers(now, r.lru, size))
  }

  /** A buffer of the size is free, or can be taken from a list. */
  ghost predicate InReach(heads: Heads, q: Queues, size: nat) {
    size < |q.free| && (q.free[size] != [] || Offers(heads, q.lru, size))
  }

  lemma InReachIs(heads: Heads, q: Queues, size: nat)
    ensures InReach(heads, q, size) <==> size < |q.free| && (q.free[size] != [] || Offers(heads, q.lru, size))
  {
  }

  lemma SparedInReach(was: Heads, q: Queues, now: Heads, r: Queues, size: nat)
    requires Spared(was, q, now, r, size) && InReach(was, q, size)
    ensures InReach(now, r, size)
  {
    hide Offers;
  }

  lemma SparedSelf(heads: Heads, q: Queues, size: nat)
    requires size < |q.free|
    ensures Spared(heads, q, heads, q, size)
  {
  }

  lemma SparedTrans(was: Heads, q: Queues, mid: Heads, m: Queues, now: Heads, r: Queues, size: nat)
    requires Spared(was, q, mid, m, size) && Spared(mid, m, now, r, size)
    ensures Spared(was, q, now, r, size)
  {
  }

  /** A head of another size that goes changes nothing for the open ones of a list. */
  lemma OpenWithout(heads: Heads, list: seq<nat>, i: nat, size: nat, b: nat, k: nat, p: nat)
    requires Distinct(list) && k < |list| && list[k] == b && b in heads && heads[b].size != size && p != k
    ensures |Without(list, b)| == |list| - 1
    ensures OpenAt(heads - {b}, Without(list, b), i, size, if p < k then p else p - 1) <==> OpenAt(heads, list, i, size, p)
  {
    OffWhole(list, k);
    var less, more := Without(list, b), heads - {b};
    var p' := if p < k then p else p - 1;
    forall q | 0 <= q < |less|
      ensures var o := if q < k then q else q + 1; less[q] == list[o] && less[q] != b
    {
    }
    if OpenAt(more, less, i, size, p') {
      forall q | 0 <= q < p && list[q] in heads
        ensures !Stops(heads[list[q]], i, size)
      {
        if q != k {
          assert less[if q < k then q else q - 1] == list[q];
        }
      }
    }
    if OpenAt(heads, list, i, size, p) {
      forall q | 0 <= q < p' && less[q] in more
        ensures !Stops(more[less[q]], i, size)
      {
        assert list[if q < k then q else q + 1] == less[q];
      }
    }
  }

  lemma OffWhole(list: seq<nat>, at: nat)
    requires Distinct(list) && at < |list|
    ensures Without(list, list[at]) == list[..at] + list[at + 1..] && list[at] !in list[..at] + list[at + 1..]
  {
    WithoutAt(list, at);
  }

  lemma OpenApart(heads: Heads, list: seq<nat>, i: nat, size: nat, b: nat, p: nat)
    requires b !in list
    ensures OpenAt(heads - {b}, list, i, size, p) <==> OpenAt(heads, list, i, size, p)
  {
  }

  /** The first open one of a list is so still when a head of another size goes. */
  lemma FirstWithout(heads: Heads, list: seq<nat>, more: seq<nat>, i: nat, size: nat, b: nat, c: nat)
    requires Distinct(list) && b in heads && heads[b].size != size && FirstLeft(heads, list, i, size, [], c)
    requires more == if b in list then Without(list, b) else list
    ensures FirstLeft(heads - {b}, more, i, size, [], c)
  {
    hide Without, OpenAt, Distinct;
    var p: nat :| LeftAt(heads, list, i, size, [], c, p);
    OpenIs(heads, list, i, size, p);
    if b in list {
      var k: nat :| k < |list| && list[k] == b;
      FirstMoved(heads, list, i, size, b, c, p, k);
    } else {
      OpenApart(heads, list, i, size, b, p);
      forall q: nat | q < p
        ensures !OpenAt(heads - {b}, more, i, size, q)
      {
        OpenApart(heads, list, i, size, b, q);
      }
      assert LeftAt(heads - {b}, more, i, size, [], c, p);
    }
  }

  lemma OpenIs(heads: Heads, list: seq<nat>, i: nat, size: nat, p: nat)
    requires OpenAt(heads, list, i, size, p)
    ensures p < |list| && list[p] in heads && heads[list[p]].size == size
  {
  }

  lemma FirstMoved(heads: Heads, list: seq<nat>, i: nat, size: nat, b: nat, c: nat, p: nat, k: nat)
    requires Distinct(list) && b in heads && heads[b].size != size && LeftAt(heads, list, i, size, [], c, p)
    requires k < |list| && list[k] == b
    ensures FirstLeft(heads - {b}, Without(list, b), i, size, [], c)
  {
    hide Without, OpenAt, Distinct;
    var more := Without(list, b);
    OpenIs(heads, list, i, size, p);
    var p' := if p < k then p else p - 1;
    OpenWithout(heads, list, i, size, b, k, p);
    OffWhole(list, k);
    forall q: nat | q < p'
      ensures !OpenAt(heads - {b}, more, i, size, q)
    {
      var o := if q < k then q else q + 1;
      OpenWithout(heads, list, i, size, b, k, o);
      assert !OpenAt(heads, list, i, size, o);
    }
    assert LeftAt(heads - {b}, more, i, size, [], c, p');
  }

  /** A head that goes spares the other sizes. */
  lemma GoneSpares(heads: Heads, q: Queues, b: nat, size: nat)
    requires Linked(heads, q, {}) && b in heads && heads[b].size != size && size < NR_SIZES
    ensures Spared(heads, q, heads - {b}, Detached(heads, q, b), size)
  {
    hide FirstLeft, Without, Queue, CountSize;
    var r := Detached(heads, q, b);
    if Offers(heads, q.lru, size) {
      var j: nat, c: nat :| Elects(j) && FirstLeft(heads, q.lru[j], j, size, [], c) && !(c in heads && heads[c].time >= UINT_MAX);
      assert Distinct(q.lru[j]) && (b in q.lru[j] <==> Hashed(heads, b) && heads[b].list == j);
      FirstWithout(heads, q.lru[j], r.lru[j], j, size, b, c);
      assert FirstLeft(heads - {b}, r.lru[j], j, size, [], c) && !(c in heads - {b} && (heads - {b})[c].time >= UINT_MAX);
      assert !NoneLeft(heads - {b}, r.lru, size, []);
    }
    assert size < |q.free| == |r.free| && r.free[size] == q.free[size];
  }

  /** The candidate of list i is the first one left of what the list was at first. */
  ghost predicate Standing(first: Heads, list: seq<nat>, taken: seq<nat>, now: seq<nat>, c: Option, left: nat, i: nat, size: nat) {
    if c.None? then forall p: nat | OpenAt(first, list, i, size, p) :: list[p] in taken
    else 0 < left <= |list| && LeftAt(first, list, i, size, taken, c.b, |list| - left) && SameEnd(list, now, left)
  }

  ghost predicate AllStanding(first: Heads, lists: seq<seq<nat>>, taken: seq<nat>, lru: seq<seq<nat>>, cands: seq<Option>,
                              lefts: seq<nat>, size: nat) {
    && |lists| == |lru| == |cands| == |lefts| == NR_LIST
    && forall i: nat | Elects(i) :: Standing(first, lists[i], taken, lru[i], cands[i], lefts[i], i, size)
  }

  /** Dirty heads may have moved, and those taken are free. */
  ghost predicate RefiledBut(was: Heads, now: Heads, taken: seq<nat>) {
    && now.Keys == was.Keys
    && forall b | b in was ::
         if b in taken then !was[b].dirt && now[b] == was[b].(dev := NODEV)
         else if was[b].dirt then now[b] == was[b].(list := now[b].list, time := now[b].time) else now[b] == was[b]
  }

  lemma RefiledButNone(was: Heads, now: Heads)
    requires Refiled(was, now)
    ensures RefiledBut(was, now, [])
  {
  }

  lemma RefiledButMore(was: Heads, mid: Heads, now: Heads, taken: seq<nat>)
    requires RefiledBut(was, mid, taken) && Refiled(mid, now)
    ensures RefiledBut(was, now, taken)
  {
  }

  lemma RefiledButTaken(was: Heads, mid: Heads, now: Heads, taken: seq<nat>, b: nat)
    requires RefiledBut(was, mid, taken) && b in mid && !mid[b].dirt && mid[b].dev != NODEV && now == mid[b := mid[b].(dev := NODEV)]
    ensures RefiledBut(was, now, taken + [b])
  {
    assert b !in taken;
  }

  /** Moving dirty heads does not change which ones of a list are open. */
  lemma OpenSame(was: Heads, now: Heads, list: seq<nat>, i: nat, size: nat, p: nat)
    requires Refiled(was, now)
    ensures OpenAt(now, list, i, size, p) <==> OpenAt(was, list, i, size, p)
  {
    forall q | 0 <= q < |list| && list[q] in was
      ensures Stops(now[list[q]], i, size) <==> Stops(was[list[q]], i, size)
    {
    }
  }

  lemma FirstStands(was: Heads, now: Heads, list: seq<nat>, c: Option, left: nat, i: nat, size: nat, more: seq<nat>)
    requires Refiled(was, now) && FirstOpen(now, list, c, left, i, size) && (c.Some? ==> SameEnd(list, more, left))
    ensures Standing(was, list, [], more, c, left, i, size)
  {
    forall p: nat
      ensures OpenAt(now, list, i, size, p) <==> OpenAt(was, list, i, size, p)
    {
      OpenSame(was, now, list, i, size, p);
    }
  }

  /** Behind a buffer just taken the scan sees what the list had there at first. */
  lemma OpenBehind(first: Heads, now: Heads, list: seq<nat>, i: nat, size: nat, taken: seq<nat>, s: nat, rest: seq<nat>, p: nat)
    requires RefiledBut(first, now, taken) && 0 < s <= |list| && rest == list[s..] && OpenAt(first, list, i, size, s - 1)
    requires forall b | b in rest :: b in now && now[b].dev != NODEV
    ensures OpenAt(now, rest, i, size, p) <==> OpenAt(first, list, i, size, s + p)
  {
    forall q | 0 <= q < |rest|
      ensures rest[q] == list[s + q] && rest[q] in first && rest[q] !in taken
      ensures Stops(now[rest[q]], i, size) <==> Stops(first[rest[q]], i, size)
      ensures Usable(now[rest[q]], size) <==> Usable(first[rest[q]], size)
    {
      assert rest[q] in rest;
    }
    if p < |rest| && OpenAt(now, rest, i, size, p) {
      forall q | 0 <= q < s + p && list[q] in first
        ensures !Stops(first[list[q]], i, size)
      {
        if q >= s {
          assert rest[q - s] == list[q];
        }
      }
    }
    if p < |rest| && OpenAt(first, list, i, size, s + p) {
      forall q | 0 <= q < p && rest[q] in now
        ensures !Stops(now[rest[q]], i, size)
      {
        assert list[s + q] == rest[q];
      }
    }
  }

  /** After a buffer of list i is taken, the next open one behind it stands. */
  lemma NextStands(first: Heads, now: Heads, list: seq<nat>, i: nat, size: nat, taken: seq<nat>, b: nat, left: nat,
                   c: Option, left': nat, more: seq<nat>)
    requires RefiledBut(first, now, taken + [b]) && 0 < left <= |list| && LeftAt(first, list, i, size, taken, b, |list| - left)
    requires forall x | x in list[|list| - (left - 1)..] :: x in now && now[x].dev != NODEV
    requires FirstOpen(now, list[|list| - (left - 1)..], c, left', i, size) && (c.Some? ==> SameEnd(list, more, left'))
    ensures Standing(first, list, taken + [b], more, c, left', i, size)
  {
    var s := |list| - (left - 1);
    var rest := list[s..];
    forall p: nat
      ensures OpenAt(now, rest, i, size, p) <==> OpenAt(first, list, i, size, s + p)
    {
      OpenBehind(first, now, list, i, size, taken + [b], s, rest, p);
    }
    forall q: nat | OpenAt(first, list, i, size, q)
      ensures q < s ==> list[q] in taken + [b]
      ensures q >= s ==> OpenAt(now, rest, i, size, q - s)
    {
      if q >= s {
        assert OpenAt(first, list, i, size, s + (q - s));
      }
    }
    if c.Some? {
      var p := |rest| - left';
      assert |list| - left' == s + p && OpenAt(first, list, i, size, s + p) && list[s + p] == rest[p] == c.b;
      assert c.b in rest && now[c.b].dev != NODEV;
    }
  }

  /** The candidates of the other lists still stand when b of another list is taken. */
  lemma OthersStand(first: Heads, list: seq<nat>, taken: seq<nat>, now: seq<nat>, c: Option, left: nat, i: nat, size: nat, b: nat)
    requires Standing(first, list, taken, now, c, left, i, size) && (c.Some? ==> c.b != b)
    ensures Standing(first, list, taken + [b], now, c, left, i, size)
  {
  }

  /** The candidate is the only first one left on its list. */
  lemma OnlyFirst(first: Heads, list: seq<nat>, taken: seq<nat>, now: seq<nat>, c: Option, left: nat, i: nat, size: nat, b: nat)
    requires Standing(first, list, taken, now, c, left, i, size) && FirstLeft(first, list, i, size, taken, b)
    ensures c == Some(b)
  {
    var p: nat :| LeftAt(first, list, i, size, taken, b, p);
    if c.Some? {
      var q := |list| - left;
      assert LeftAt(first, list, i, size, taken, c.b, q);
      assert p == q;
    }
  }

  /** Candidate w has the least time, and less than the ones before it. */
  ghost predicate Wins(now: Heads, cands: seq<Option>, w: nat) {
    && w < |cands| && cands[w].Some? && cands[w].b in now && now[cands[w].b].time < UINT_MAX
    && forall i | 0 <= i < |cands| && cands[i].Some? ::
         cands[i].b in now && now[cands[w].b].time <= now[cands[i].b].time && (i < w ==> now[cands[w].b].time < now[cands[i].b].time)
  }

  /** No candidate has a time below the largest. */
  ghost predicate NobodyWins(now: Heads, cands: seq<Option>) {
    forall i | 0 <= i < |cands| && cands[i].Some? :: cands[i].b in now && now[cands[i].b].time >= UINT_MAX
  }

  /** The candidate with the least time is elected. */
  lemma WinnerElected(first: Heads, lists: seq<seq<nat>>, taken: seq<nat>, now: Heads, lru: seq<seq<nat>>, cands: seq<Option>,
                      lefts: seq<nat>, size: nat, w: nat)
    requires AllStanding(first, lists, taken, lru, cands, lefts, size) && RefiledBut(first, now, taken)
    requires Elects(w) && cands[w].Some?
    requires Wins(now, cands, w)
    ensures Elected(first, lists, size, taken, cands[w].b)
  {
    hide OpenAt, SameEnd;
    var b := cands[w].b;
    assert Standing(first, lists[w], taken, lru[w], cands[w], lefts[w], w, size);
    assert LeftAt(first, lists[w], w, size, taken, b, |lists[w]| - lefts[w]);
    assert FirstLeft(first, lists[w], w, size, taken, b);
    CleanLeft(first, now, lists[w], w, size, taken, b);
    forall j: nat, c: nat | Elects(j) && FirstLeft(first, lists[j], j, size, taken, c)
      ensures c in first && first[b].time <= first[c].time && (j < w ==> first[b].time < first[c].time)
    {
      OnlyFirst(first, lists[j], taken, lru[j], cands[j], lefts[j], j, size, c);
      CleanLeft(first, now, lists[j], j, size, taken, c);
    }
    assert ElectedFrom(first, lists, size, taken, b, w);
  }

  lemma CleanLeft(first: Heads, now: Heads, list: seq<nat>, i: nat, size: nat, taken: seq<nat>, b: nat)
    requires RefiledBut(first, now, taken) && FirstLeft(first, list, i, size, taken, b)
    ensures b in first && b in now && now[b] == first[b]
  {
  }

  lemma NoElections(heads: Heads, lru: seq<seq<nat>>, size: nat)
    requires |lru| == NR_LIST
    ensures Elections(heads, lru, size, [])
  {
  }

  lemma ElectedNext(first: Heads, lists: seq<seq<nat>>, taken: seq<nat>, now: Heads, lru: seq<seq<nat>>, cands: seq<Option>,
                    lefts: seq<nat>, size: nat, w: nat)
    requires AllStanding(first, lists, taken, lru, cands, lefts, size) && RefiledBut(first, now, taken)
    requires Elections(first, lists, size, taken)
    requires Elects(w) && cands[w].Some?
    requires Wins(now, cands, w)
    ensures Elections(first, lists, size, taken + [cands[w].b]) && SameEnd(lists[w], lru[w], lefts[w])
  {
    hide LeftAt, SameEnd, Elected;
    WinnerElected(first, lists, taken, now, lru, cands, lefts, size, w);
    assert Standing(first, lists[w], taken, lru[w], cands[w], lefts[w], w, size);
    var more := taken + [cands[w].b];
    forall n | 0 <= n < |more|
      ensures Elected(first, lists, size, more[..n], more[n])
    {
      assert more[..n] == taken[..n];
      assert n == |taken| ==> taken[..n] == taken;
    }
  }

  lemma NothingBehind(heads: Heads, list: seq<nat>, i: nat, size: nat)
    ensures FirstOpen(heads, list[|list| - 0..], None, 0, i, size)
  {
  }

  /** One more buffer is taken, and the scan has gone on behind it. */
  lemma NextAllStand(first: Heads, lists: seq<seq<nat>>, taken: seq<nat>, was: Heads, lru: seq<seq<nat>>, cands: seq<Option>,
                     lefts: seq<nat>, size: nat, i: nat, now: Heads, mid: seq<seq<nat>>, c: Option, left: nat, more: seq<seq<nat>>)
    requires AllStanding(first, lists, taken, lru, cands, lefts, size) && Elects(i) && cands[i].Some?
    requires AllCandidates(was, lru, cands, lefts, size, NR_LIST) && |mid| == |more| == NR_LIST
    requires RefiledBut(first, now, taken + [cands[i].b]) && 0 < lefts[i]
    requires SameEnd(lists[i], mid[i], lefts[i] - 1) && forall x | x in mid[i] :: x in now && now[x].dev != NODEV
    requires FirstOpen(now, mid[i][|mid[i]| - (lefts[i] - 1)..], c, left, i, size)
    requires SameEnd(mid[i], more[i], left) && left < lefts[i]
    requires forall j | 0 <= j < NR_LIST && j != i && j != DIRTY :: more[j] == lru[j]
    ensures AllStanding(first, lists, taken + [cands[i].b], more, cands[i := c], lefts[i := left], size)
  {
    hide OpenAt, FirstOpen, RefiledBut;
    var b := cands[i].b;
    assert Standing(first, lists[i], taken, lru[i], cands[i], lefts[i], i, size);
    EndTrans(lists[i], mid[i], more[i], lefts[i] - 1, left);
    NextStands(first, now, lists[i], i, size, taken, b, lefts[i], c, left, more[i]);
    forall j: nat | Elects(j) && j != i
      ensures Standing(first, lists[j], taken + [b], more[j], cands[j], lefts[j], j, size)
    {
      assert CandidateAt(was, lru[j], cands[j], lefts[j], j, size) && CandidateAt(was, lru[i], cands[i], lefts[i], i, size);
      OthersStand(first, lists[j], taken, lru[j], cands[j], lefts[j], j, size, b);
    }
  }

  lemma EndTrans(list: seq<nat>, mid: seq<nat>, more: seq<nat>, n: nat, left: nat)
    requires SameEnd(list, mid, n) && SameEnd(mid, more, left) && left <= n
    ensures SameEnd(list, more, left)
  {
    assert list[|list| - n..][n - left..] == list[|list| - left..];
    assert mid[|mid| - n..][n - left..] == mid[|mid| - left..];
  }

  /** Nobody wins only when nobody can. */
  lemma NobodyLeft(first: Heads, lists: seq<seq<nat>>, taken: seq<nat>, now: Heads, lru: seq<seq<nat>>, cands: seq<Option>,
                   lefts: seq<nat>, size: nat)
    requires AllStanding(first, lists, taken, lru, cands, lefts, size) && RefiledBut(first, now, taken)
    requires NobodyWins(now, cands)
    ensures NoneLeft(first, lists, size, taken)
  {
    hide OpenAt, SameEnd;
    forall j: nat, c: nat | Elects(j) && FirstLeft(first, lists[j], j, size, taken, c)
      ensures c in first && first[c].time >= UINT_MAX
    {
      OnlyFirst(first, lists[j], taken, lru[j], cands[j], lefts[j], j, size, c);
      CleanLeft(first, now, lists[j], j, size, taken, c);
    }
  }

  ghost predicate AllCandidates(heads: Heads, lru: seq<seq<nat>>, cands: seq<Option>, lefts: seq<nat>, size: nat, n: nat)
    requires |lru| == NR_LIST
  {
    && n <= |cands| == |lefts| == NR_LIST
    && forall i | 0 <= i < n ::
         CandidateAt(heads, lru[i], cands[i], lefts[i], i, size) && (cands[i].Some? ==> i != DIRTY && i != SHARED)
  }

  lemma NoneYet(heads: Heads, lru: seq<seq<nat>>, cands: seq<Option>, lefts: seq<nat>, size: nat)
    requires |lru| == |cands| == |lefts| == NR_LIST
    ensures AllCandidates(heads, lru, cands, lefts, size, 0)
  {
  }

  /** The candidates of the other lists still stand. */
  ghost predicate OthersOk(heads: Heads, lru: seq<seq<nat>>, cands: seq<Option>, lefts: seq<nat>, size: nat, i: nat, n: nat)
    requires |lru| == NR_LIST
  {
    && n <= |cands| == |lefts| == NR_LIST
    && forall j | 0 <= j < n && j != i ::
         CandidateAt(heads, lru[j], cands[j], lefts[j], j, size) && (cands[j].Some? ==> j != DIRTY && j != SHARED)
  }

  lemma OneMore(heads: Heads, lru: seq<seq<nat>>, cands: seq<Option>, lefts: seq<nat>, size: nat, i: nat, n: nat, c: Option, left: nat)
    requires |lru| == NR_LIST && OthersOk(heads, lru, cands, lefts, size, i, n) && i < NR_LIST && i <= n
    requires CandidateAt(heads, lru[i], c, left, i, size) && (c.Some? ==> i != DIRTY && i != SHARED)
    ensures AllCandidates(heads, lru, cands[i := c], lefts[i := left], size, if i == n then n + 1 else n)
  {
  }

  /** Clean heads of the other lists are as they were. */
  ghost predicate Undisturbed(was: Heads, now: Heads, i: nat) {
    forall b {:trigger was[b]} | b in was && !was[b].dirt && was[b].list != i :: b in now && now[b] == was[b]
  }

  lemma RefiledUndisturbed(was: Heads, now: Heads, i: nat)
    requires Refiled(was, now)
    ensures Undisturbed(was, now, i)
  {
  }

  lemma FreedUndisturbed(was: Heads, now: Heads, b: nat, i: nat)
    requires b in was && was[b].list == i && now == was[b := was[b].(dev := NODEV)]
    ensures Undisturbed(was, now, i)
  {
  }

  lemma UndisturbedTrans(was: Heads, mid: Heads, now: Heads, i: nat)
    requires Undisturbed(was, mid, i) && Undisturbed(mid, now, i)
    ensures Undisturbed(was, now, i)
  {
  }

  lemma OthersStay(was: Heads, now: Heads, lru: seq<seq<nat>>, more: seq<seq<nat>>, cands: seq<Option>, lefts: seq<nat>,
                   size: nat, i: nat, n: nat)
    requires |lru| == |more| == NR_LIST && Undisturbed(was, now, i) && AllCandidates(was, lru, cands, lefts, size, n)
    requires forall j | 0 <= j < NR_LIST && j != i && j != DIRTY :: more[j] == lru[j]
    ensures OthersOk(now, more, cands, lefts, size, i, n)
  {
  }

  lemma CandidateFacts(heads: Heads, lru: seq<seq<nat>>, cands: seq<Option>, lefts: seq<nat>, size: nat, i: nat)
    requires |lru| == NR_LIST && AllCandidates(heads, lru, cands, lefts, size, NR_LIST) && i < NR_LIST && cands[i].Some?
    ensures var b, left := cands[i].b, lefts[i];
            && 0 < left <= |lru[i]| && lru[i][|lru[i]| - left] == b && b in heads && heads[b].list == i
            && Usable(heads[b], size) && i != DIRTY && i != SHARED
  {
  }

  lemma CandidateHeads(heads: Heads, lru: seq<seq<nat>>, cands: seq<Option>, lefts: seq<nat>, size: nat)
    requires |lru| == NR_LIST && AllCandidates(heads, lru, cands, lefts, size, NR_LIST)
    ensures |cands| == |lefts| == NR_LIST && forall i | 0 <= i < NR_LIST && cands[i].Some? :: cands[i].b in heads
  {
  }

  lemma UsableAt(heads: Heads, b: nat, size: nat)
    requires b in heads && Usable(heads[b], size)
    ensures Hashed(heads, b) && !InUse(heads[b]) && !heads[b].dirt && heads[b].dev != NODEV && heads[b].size == size
  {
  }

  lemma KeptSelf(heads: Heads)
    ensures Kept(heads, heads)
  {
  }

  lemma KeptFree(was: Heads, mid: Heads, now: Heads, b: nat)
    requires Kept(was, mid) && b in mid && !InUse(mid[b]) && now == mid[b := mid[b].(dev := NODEV)]
    ensures Kept(was, now)
  {
  }

  lemma KeptRefiled(was: Heads, mid: Heads, now: Heads)
    requires Kept(was, mid) && Refiled(mid, now)
    ensures Kept(was, now)
  {
  }

  lemma KeptTrans(was: Heads, mid: Heads, now: Heads)
    requires Kept(was, mid) && Kept(mid, now)
    ensures Kept(was, now)
  {
  }

  /** Bytes of one buffer. */
  function Bytes(size: nat): (bytes: nat)
    ensures size < NR_SIZES ==> bytes == 512 * Pow2(size)
  {
    assert Pow2(0) == 1 && Pow2(1) == 2 && Pow2(2) == 4 && Pow2(3) == 8;
    if size == 0 then 512 else if size == 1 then 1024 else if size == 2 then 2048 else 4096
  }

  lemma BytesPositive(size: nat)
    ensures 0 < Bytes(size) <= PAGE_SIZE
  {
  }

  lemma RefiledTrans(was: Heads, mid: Heads, now: Heads)
    requires Refiled(was, mid) && Refiled(mid, now)
    ensures Refiled(was, now)
  {
  }

  /** Buffers of one page. */
  function PerPage(size: nat): nat {
    if size == 0 then 8 else if size == 1 then 4 else if size == 2 then 2 else 1
  }

  lemma PerPageFills(size: nat, n: nat)
    requires size < NR_SIZES
    ensures (n + PerPage(size)) * Bytes(size) == n * Bytes(size) + PAGE_SIZE
  {
    assert PerPage(size) * Bytes(size) == PAGE_SIZE;
  }

  lemma Filled(size: nat, before: nat, after: nat)
    requires after * Bytes(size) == before * Bytes(size) + PAGE_SIZE
    ensures after > 0
  {
    MulAtLeast(Bytes(size), before);
  }

  /** A head moved from one list to the end of another, or to the end of its own. */
  ghost function MovedTo(lru: seq<seq<nat>>, b: nat, from: nat, to: nat): seq<seq<nat>>
    requires from < |lru| && to < |lru|
  {
    var less := lru[from := Without(lru[from], b)];
    less[to := less[to] + [b]]
  }

  lemma NewHeadOk(heads: Heads, sizes: map<nat, nat>, b: nat, size: nat, page: nat)
    requires HeadsOk(heads, sizes)
    ensures HeadsOk(heads[b := Head(NODEV, 0, size, 0, false, Idle, false, 0, 0, [], page)], sizes)
    ensures NODEV > 0 && 0 < NR_LIST
  {
  }

  /** The first one goes last. */
  ghost function Turned(list: seq<nat>): seq<nat> {
    if list == [] then [] else list[1..] + [list[0]]
  }

  lemma TurnedSize(list: seq<nat>)
    ensures |Turned(list)| == |list|
  {
  }

  lemma TurnedIs(list: seq<nat>)
    requires Distinct(list) && list != []
    ensures ToEnd(list, list[0]) == Turned(list)
  {
    hide Without, Distinct;
    WithoutAt(list, 0);
    assert list[..0] + list[0 + 1..] == list[1..];
  }

  /** New heads stand in front of a free list, and its former first one is now the last. */
  ghost predicate AddedInFront(was: Heads, free: seq<seq<nat>>, more: seq<seq<nat>>, size: nat) {
    && size < |free| == |more| && more == free[size := more[size]]
    && var n := |more[size]| - |free[size]|;
       n >= 0 && more[size][n..] == Turned(free[size]) && forall i | 0 <= i < n :: more[size][i] !in was
  }

  lemma AddedInFrontIs(was: Heads, free: seq<seq<nat>>, more: seq<seq<nat>>, size: nat, n: nat)
    requires size < |free| == |more| && more == free[size := more[size]] && n <= |more[size]|
    requires more[size][n..] == Turned(free[size]) && forall i | 0 <= i < n :: more[size][i] !in was
    ensures AddedInFront(was, free, more, size)
  {
    TurnedSize(free[size]);
  }

  lemma PutInAt(list: seq<nat>, more: seq<nat>, k: nat, was: Heads)
    requires k < |more| && k <= |list| && more == list[..k] + [more[k]] + list[k..]
    ensures more[k + 1..] == list[k..] && forall i | 0 <= i < k :: more[i] == list[i]
  {
  }

  /** b cannot make its page go: it is no buffer, or of the size to be spared, or some buffer of its page
      is in use. */
  ghost predicate PageInUse(heads: Heads, b: nat, spare: nat) {
    b in heads && heads[b].size != spare ==> exists c :: c in heads && heads[c].page == heads[b].page && InUse(heads[c])
  }

  lemma PageInUseIs(heads: Heads, b: nat, spare: nat)
    requires b in heads && heads[b].size != spare ==> !forall c | c in heads && heads[c].page == heads[b].page :: !InUse(heads[c])
    ensures PageInUse(heads, b, spare)
  {
  }

  lemma WithoutHandleIs(held: seq<Handle>, i: nat)
    requires i < |held|
    ensures WithoutHandle(held, i) == held[..i] + held[i + 1..]
  {
  }

  lemma DirtyNotShared()
    ensures DIRTY != SHARED
  {
  }

  lemma FreeCounted(heads: Heads, q: Queues, size: nat)
    requires Linked(heads, q, {}) && size < NR_SIZES && |q.free| == |q.nrFree| == NR_SIZES && q.nrFree[size] > 100
    ensures q.free[size] != []
  {
    hide Placed, CountSize;
  }

  /** Bytes of some buffers of one size. */
  ghost function Worth(some: seq<nat>, size: nat): nat {
    MulAtLeast(Bytes(size), |some|);
    |some| * Bytes(size)
  }

  lemma WorthMore(some: seq<nat>, b: nat, size: nat)
    ensures Worth([], size) == 0 && Worth(some + [b], size) == Worth(some, size) + Bytes(size)
  {
    assert (|some| + 1) * Bytes(size) == |some| * Bytes(size) + Bytes(size);
  }

  /** An election takes something if anything can be taken. */
  lemma Reached(was: Heads, lists: seq<seq<nat>>, free: seq<seq<nat>>, size: nat, wanted: int, taken: seq<nat>, needed: int)
    requires |lists| == NR_LIST && size < |free| && needed == wanted - Worth(taken, size) && Bytes(size) > 0
    requires needed > 0 ==> NoneLeft(was, lists, size, taken)
    ensures wanted > 0 && (free[size] != [] || Offers(was, lists, size)) ==> free[size] + taken != []
    ensures needed <= wanted
  {
    hide NoneLeft;
    WorthMore(taken, 0, size);
  }

  /** A new free head is put in at place k of its free list. */
  lemma GrownLinked(heads: Heads, q: Queues, b: nat, h: Head, k: nat)
    requires Linked(heads, q, {}) && b !in heads && h.dev == NODEV && h.size < NR_SIZES && h.list < NR_LIST
    requires k <= |q.free[h.size]|
    ensures |q.free| == |q.nrFree| == NR_SIZES
    ensures Linked(heads[b := h], q.(free := q.free[h.size := q.free[h.size][..k] + [b] + q.free[h.size][k..]],
                                     nrFree := q.nrFree[h.size := q.nrFree[h.size] + 1]), {})
  {
    hide Placed, CountSize, Queue, Distinct;
    var more := heads[b := h];
    NotYetLinked(heads, q, b);
    OutChanges(heads, more, q, b);
    PlacedInserts(q.free, FreePlace(more, {b}), b, h.size, k);
    assert LruPlace(more, {}) == LruPlace(more, {b}) && ChainPlace(more, {}, |q.chains|) == ChainPlace(more, {b}, |q.chains|);
    assert FreePlace(more, {b})[b := h.size] == FreePlace(more, {});
  }

  /** A free head more changes nothing about contents. */
  lemma AddedCoherent(heads: Heads, disk: Disk, flat: Disk, b: nat, h: Head)
    requires Coherent(heads, disk, flat) && Unique(heads) && b !in heads && h.dev == NODEV
    ensures Coherent(heads[b := h], disk, flat) && Unique(heads[b := h])
  {
    var more := heads[b := h];
    forall d, k | PendingAt(heads, d, k)
      ensures PendingAt(more, d, k)
    {
      var c :| Hashed(heads, c) && heads[c].dev == d && heads[c].block == k && Pending(heads[c]);
      assert Hashed(more, c);
    }
    forall c | Hashed(more, c)
      ensures Hashed(heads, c) && more[c] == heads[c]
    {
    }
  }

  lemma OneSizeMore(heads: Heads, b: nat, h: Head)
    requires OneSize(heads) && b !in heads && forall c | c in heads && heads[c].page == h.page :: heads[c].size == h.size
    ensures OneSize(heads[b := h])
  {
  }

  lemma RingMore(heads: Heads, pages: map<nat, seq<nat>>, b: nat, h: Head)
    requires Rings(heads, pages) && b !in heads && h.page in pages
    ensures Rings(heads[b := h], pages[h.page := pages[h.page] + [b]])
  {
    AppendDistinct(pages[h.page], b);
  }

  lemma AddedPage(heads: Heads, pages: map<nat, seq<nat>>, b: nat, h: Head)
    requires PagesOk(heads, pages) && b !in heads && h.page in pages
    requires forall c | c in heads && heads[c].page == h.page :: heads[c].size == h.size
    ensures PagesOk(heads[b := h], pages[h.page := pages[h.page] + [b]]) && |heads[b := h]| == |heads| + 1
  {
    hide Rings, OneSize;
    OneSizeMore(heads, b, h);
    RingMore(heads, pages, b, h);
    var more := heads[b := h];
    assert more.Keys == heads.Keys + {b} && |more| == |more.Keys| && |heads| == |heads.Keys|;
  }

  lemma EmptyPage(heads: Heads, pages: map<nat, seq<nat>>, page: nat)
    requires PagesOk(heads, pages) && page !in pages
    ensures PagesOk(heads, pages[page := []]) && forall b | b in heads :: heads[b].page != page
    ensures |pages[page := []].Keys| == |pages.Keys| + 1
  {
    assert pages[page := []].Keys == pages.Keys + {page};
  }

  lemma NoneOnPage(heads: Heads, pages: map<nat, seq<nat>>, page: nat)
    requires PagesOk(heads, pages) && page in pages && pages[page] == []
    ensures PagesOk(heads, pages - {page}) && |(pages - {page}).Keys| == |pages.Keys| - 1
  {
    assert (pages - {page}).Keys == pages.Keys - {page};
    forall b | b in heads
      ensures heads[b].page != page
    {
      assert b !in pages[page];
    }
  }

  lemma RotatedLinked(heads: Heads, q: Queues, size: nat)
    requires Linked(heads, q, {}) && size < NR_SIZES && q.free[size] != []
    ensures var b := q.free[size][0];
            Linked(heads, q.(free := q.free[size := ToEnd(q.free[size], b)]), {}) && ToEnd(q.free[size], b) == Turned(q.free[size])
  {
    hide CountSize, Queue;
    var b := q.free[size][0];
    assert b in q.free[size] && FreePlace(heads, {})[b] == size;
    PlacedUses(q.free, FreePlace(heads, {}), b);
    TurnedIs(q.free[size]);
  }

  lemma KeptMore(was: Heads, now: Heads)
    requires forall b | b in was :: b in now && now[b] == was[b]
    ensures Kept(was, now)
  {
  }

  /** Buffers that went were on one page, none of them in use. */
  lemma KeptRest(was: Heads, now: Heads, page: nat)
    requires forall c | c in now :: c in was && now[c] == was[c]
    requires forall c | c in was && c !in now :: was[c].page == page
    requires forall c | c in was && was[c].page == page :: !InUse(was[c])
    ensures Kept(was, now)
  {
  }

  lemma Busy(h: Head)
    requires h.count > 0 || h.dirt || h.io != Idle
    ensures InUse(h)
  {
  }

  lemma PageRing(heads: Heads, pages: map<nat, seq<nat>>, page: nat, b: nat)
    requires PagesOk(heads, pages) && b in heads && heads[b].page == page
    ensures page in pages && forall i | 0 <= i < |pages[page]| :: pages[page][i] in heads
  {
    forall i | 0 <= i < |pages[page]|
      ensures pages[page][i] in heads
    {
      assert pages[page][i] in pages[page];
    }
  }

  lemma RingInUse(heads: Heads, pages: map<nat, seq<nat>>, page: nat, c: nat)
    requires PagesOk(heads, pages) && page in pages && c in pages[page]
    ensures c in heads && heads[c].page == page
  {
  }

  lemma RingFree(heads: Heads, pages: map<nat, seq<nat>>, page: nat, ring: seq<nat>)
    requires PagesOk(heads, pages) && page in pages && ring == pages[page]
    requires forall j | 0 <= j < |ring| :: ring[j] in heads && !InUse(heads[ring[j]])
    ensures forall c | c in heads && heads[c].page == page :: !InUse(heads[c])
  {
  }

  lemma RingMember(heads: Heads, pages: map<nat, seq<nat>>, page: nat)
    requires PagesOk(heads, pages) && page in pages && pages[page] != []
    ensures pages[page][0] in heads && heads[pages[page][0]].page == page
  {
    assert pages[page][0] in pages[page];
  }

  lemma SameSize(heads: Heads, pages: map<nat, seq<nat>>, b: nat, c: nat)
    requires PagesOk(heads, pages) && b in heads && c in heads && heads[b].page == heads[c].page
    ensures heads[b].size == heads[c].size
  {
    hide Rings;
  }

  lemma RingGone(heads: Heads, pages: map<nat, seq<nat>>, page: nat, b: nat)
    requires PagesOk(heads, pages) && page in pages && pages[page] == []
    ensures b in heads ==> heads[b].page != page
  {
    assert b !in pages[page];
  }

  /** A head that is not in use can go. */
  lemma GoneHead(heads: Heads, disk: Disk, flat: Disk, b: nat)
    requires Coherent(heads, disk, flat) && Unique(heads) && b in heads && !InUse(heads[b])
    ensures Coherent(heads - {b}, disk, flat) && Unique(heads - {b})
  {
    var more := heads - {b};
    FreedCoherent(heads, more, disk, flat, b);
    forall c | Hashed(more, c)
      ensures Hashed(heads, c) && more[c] == heads[c]
    {
    }
  }

  lemma GonePage(heads: Heads, pages: map<nat, seq<nat>>, b: nat)
    requires PagesOk(heads, pages) && b in heads
    ensures var page := heads[b].page;
            && page in pages && PagesOk(heads - {b}, pages[page := Without(pages[page], b)])
            && |Without(pages[page], b)| == |pages[page]| - 1
  {
    var page, more := heads[b].page, heads - {b};
    WithoutDistinct(pages[page], b);
    var rest := pages[page := Without(pages[page], b)];
    forall p | p in rest
      ensures Distinct(rest[p]) && forall c :: c in rest[p] <==> c in more && more[c].page == p
    {
      assert Distinct(pages[p]);
    }
  }

  lemma FewerOk(heads: Heads, sizes: map<nat, nat>, b: nat)
    requires HeadsOk(heads, sizes)
    ensures HeadsOk(heads - {b}, sizes)
  {
  }

  lemma OneLess(heads: Heads, b: nat)
    requires b in heads
    ensures |heads - {b}| == |heads| - 1
  {
    var more := heads - {b};
    assert more.Keys == heads.Keys - {b} && |more| == |more.Keys| && |heads| == |heads.Keys|;
  }

  /** Whatever is hashed now was hashed before, for the same block. */
  ghost predicate Unhashed(was: Heads, now: Heads) {
    forall b {:trigger now[b]} | b in now && now[b].dev != NODEV ::
      b in was && was[b].dev == now[b].dev && was[b].block == now[b].block
  }

  lemma UnhashedSelf(heads: Heads)
    ensures Unhashed(heads, heads)
  {
  }

  lemma UnhashedTrans(was: Heads, mid: Heads, now: Heads)
    requires Unhashed(was, mid) && Unhashed(mid, now)
    ensures Unhashed(was, now)
  {
  }

  lemma UnhashedRefiled(was: Heads, mid: Heads, now: Heads)
    requires Unhashed(was, mid) && Refiled(mid, now)
    ensures Unhashed(was, now)
  {
  }

  lemma UnhashedFree(was: Heads, mid: Heads, now: Heads, b: nat)
    requires Unhashed(was, mid) && b in mid && now == mid[b := mid[b].(dev := NODEV)]
    ensures Unhashed(was, now)
  {
  }

  lemma UnhashedLess(was: Heads, mid: Heads, now: Heads)
    requires Unhashed(was, mid) && forall c | c in now :: c in mid && now[c] == mid[c]
    ensures Unhashed(was, now)
  {
  }

  lemma UnhashedMore(was: Heads, mid: Heads, now: Heads)
    requires Unhashed(was, mid) && forall c | c in mid :: c in now && now[c] == mid[c]
    requires forall c | c in now && c !in mid :: now[c].dev == NODEV
    ensures Unhashed(was, now)
  {
  }

  /** No other buffer in use is recycled or loses anything. */
  ghost predicate KeptBut(was: Heads, now: Heads, b: nat) {
    forall c {:trigger was[c]} | c in was && c != b && InUse(was[c]) ::
      c in now && now[c] == was[c].(list := now[c].list, time := now[c].time)
  }

  lemma KeptSome(was: Heads, now: Heads, b: nat)
    requires Kept(was, now)
    ensures KeptBut(was, now, b)
  {
  }

  lemma HeldAgain(was: Heads, now: Heads, b: nat)
    requires b in was && b in now
    requires now == was[b := was[b].(count := was[b].count + 1, io := Idle, uptodate := now[b].uptodate, data := now[b].data)]
    requires Alive(was[b]) ==> now[b].uptodate
    ensures KeptBut(was, now, b) && HeldOnce(was[b], now[b])
  {
  }

  /** The buffer shows its block, or will when the device is done with it. */
  predicate Alive(h: Head) {
    h.uptodate || h.io != Idle
  }

  /** The same buffer held once more. */
  predicate HeldOnce(was: Head, now: Head) {
    && now.dev == was.dev && now.block == was.block && now.count == was.count + 1
    && (Alive(was) ==> now.uptodate)
  }

  /** Buffers someone holds stay buffers of their blocks, held as often, and alive. */
  ghost predicate Gripped(was: Heads, now: Heads) {
    forall b {:trigger was[b]} | b in was && was[b].count > 0 && was[b].dev != NODEV ::
      b in now && StillHeld(was[b], now[b])
  }

  predicate StillHeld(was: Head, now: Head) {
    now.dev == was.dev && now.block == was.block && now.count == was.count && (Alive(was) ==> Alive(now))
  }

  lemma KeptGrips(was: Heads, now: Heads)
    requires Kept(was, now)
    ensures Gripped(was, now)
  {
  }

  /** A buffer taken once more, changed and given back. */
  lemma ButOneGrips(was: Heads, mid: Heads, now: Heads, b: nat)
    requires KeptBut(was, mid, b) && b in mid && b in now && now == mid[b := now[b]]
    requires b in was && InUse(was[b]) ==> HeldOnce(was[b], mid[b]) && now[b].count == mid[b].count - 1
    requires now[b].dev == mid[b].dev && now[b].block == mid[b].block && (mid[b].uptodate ==> Alive(now[b]))
    ensures Gripped(was, now)
  {
  }

  lemma OneGrips(was: Heads, now: Heads, b: nat)
    requires b in was && b in now && now == was[b := now[b]] && StillHeld(was[b], now[b])
    ensures Gripped(was, now)
  {
  }

  lemma KeptTaken(was: Heads, mid: Heads, now: Heads, b: nat)
    requires Kept(was, mid) && b in mid && b in now && mid[b].dev == NODEV && !InUse(mid[b]) && now == mid[b := now[b]]
    ensures KeptBut(was, now, b) && (b in was ==> !InUse(was[b]))
  {
  }

  lemma KeptButOne(was: Heads, mid: Heads, now: Heads, b: nat)
    requires KeptBut(was, mid, b) && b in mid && b in now && now == mid[b := now[b]]
    ensures KeptBut(was, now, b)
  {
  }

  lemma Held(heads: Heads, flat: Disk, b: nat, dev: nat, block: nat)
    requires Holding(heads, flat, b, dev, block)
    ensures Hashed(heads, b) && b in heads && heads[b].dev == dev && heads[b].block == block && heads[b].count > 0
    ensures heads[b].io == Idle && (heads[b].uptodate ==> heads[b].data == At(flat, dev, block))
  {
  }

  lemma AliveIs(h: Head)
    ensures Alive(h) <==> h.uptodate || h.io != Idle
  {
  }

  lemma StillAlive(was: Head, now: Head)
    requires now.dev == was.dev && now.block == was.block && now.count == was.count && (now.uptodate || now.io != Idle)
    ensures StillHeld(was, now)
  {
  }

  lemma GripsSelf(heads: Heads)
    ensures Gripped(heads, heads)
  {
  }

  lemma HeldThrough(was: Head, mid: Head, now: Head)
    requires HeldOnce(was, mid) && now.dev == mid.dev && now.block == mid.block && now.count == mid.count
    requires mid.uptodate ==> now.uptodate
    ensures HeldOnce(was, now)
  {
  }

  lemma Ready(heads: Heads, flat: Disk, b: nat, dev: nat, block: nat)
    requires Hashed(heads, b) && heads[b].dev == dev && heads[b].block == block && heads[b].count > 0
    requires heads[b].io == Idle && heads[b].uptodate && heads[b].data == At(flat, heads[b].dev, heads[b].block)
    ensures Holding(heads, flat, b, dev, block)
  {
  }

  lemma StillAbsent(was: Heads, now: Heads, dev: nat, block: nat)
    requires Unhashed(was, now) && dev != NODEV
    requires forall c | Hashed(was, c) :: !(was[c].dev == dev && was[c].block == block)
    ensures forall c | c in now && now[c].dev == dev :: now[c].block != block
  {
    forall c | c in now && now[c].dev == dev
      ensures now[c].block != block
    {
      assert Hashed(was, c);
    }
  }

  lemma OnFreeList(heads: Heads, q: Queues, size: nat)
    requires Linked(heads, q, {}) && size < NR_SIZES && |q.free| == NR_SIZES && q.free[size] != []
    ensures q.free[size][0] in heads && heads[q.free[size][0]].dev == NODEV && heads[q.free[size][0]].size == size
  {
    hide CountSize, Queue;
    assert q.free[size][0] in q.free[size];
  }

  lemma LinkedSizes(heads: Heads, q: Queues, b: nat)
    requires Linked(heads, q, {b}) && b in heads
    ensures heads[b].size < NR_SIZES && heads[b].list < NR_LIST
  {
  }

  /** A free head may be given to a block that has none. */
  lemma TakenOk(heads: Heads, more: Heads, disk: Disk, flat: Disk, sizes: map<nat, nat>, pages: map<nat, seq<nat>>, b: nat, h: Head)
    requires HeadsOk(heads, sizes) && Unique(heads) && Coherent(heads, disk, flat) && PagesOk(heads, pages)
    requires b in heads && heads[b].dev == NODEV && h.dev in sizes && NODEV !in sizes && h.size == heads[b].size == sizes[h.dev]
    requires h.page == heads[b].page && h.count == 1 && !h.dirt && h.io == Idle && !h.uptodate && more == heads[b := h]
    requires forall c | c in heads && heads[c].dev == h.dev :: heads[c].block != h.block
    ensures HeadsOk(more, sizes) && Unique(more) && Coherent(more, disk, flat) && PagesOk(more, pages) && |more| == |heads|
    ensures Holding(more, flat, b, h.dev, h.block)
  {
    hide Coherent;
    assert HeadOk(heads[b], sizes);
    FreedCoherent(heads, more, disk, flat, b);
    PagesSame(heads, more, pages);
    forall x, y | Hashed(more, x) && Hashed(more, y) && more[x].dev == more[y].dev && more[x].block == more[y].block
      ensures x == y
    {
      assert x != b ==> Hashed(heads, x);
      assert y != b ==> Hashed(heads, y);
    }
    assert more.Keys == heads.Keys && |more| == |more.Keys| && |heads| == |heads.Keys|;
  }

  datatype Step =
    | Put(dev: nat, block: nat, contents: Data)
    | Get(dev: nat, block: nat)
    | Flush(b: nat, super: bool)
    | Complete(b: nat)
    | Reclaim(tries: seq<nat>)

  /** A buffer someone holds, and the block it was taken for. */
  datatype Handle = Handle(b: nat, dev: nat, block: nat)

  /** What users do who keep buffers across what others do. */
  datatype Use =
    | Take(dev: nat, block: nat)
    | Look(i: nat)
    | Change(i: nat, contents: Data)
    | Release(i: nat)
    | Forget(i: nat)
    | Meanwhile(step: Step)

  /** What a use reports back, and what there is between two uses: the handles, what users see, what is
      on the disk, and the cache. */
  datatype Report = Report(ok: bool, data: Data)
  datatype Moment = Moment(held: seq<Handle>, flat: Disk, disk: Disk, heads: Heads, queues: Queues)

  /** Nothing is hashed for the block. */
  ghost predicate Missing(heads: Heads, dev: nat, block: nat) {
    forall c | Hashed(heads, c) :: !(heads[c].dev == dev && heads[c].block == block)
  }

  /** The only cause to refuse a block of a known device: it was not in the cache, no buffer of its
      size is free even after the last refill, and if there was a refill at all, no list had a
      buffer that could be taken. */
  ghost predicate NoBuffer(sizes: map<nat, nat>, waits: bool, was: Heads, q: Queues, dev: nat, block: nat, now: Queues) {
    dev in sizes ==>
      && Missing(was, dev, block) && sizes[dev] < |now.free| && now.free[sizes[dev]] == []
      && (waits ==> !InReach(was, q, sizes[dev]))
  }

  lemma NoBufferIs(sizes: map<nat, nat>, waits: bool, was: Heads, q: Queues, dev: nat, block: nat, now: Queues)
    requires Missing(was, dev, block) && dev in sizes && sizes[dev] < |now.free| && now.free[sizes[dev]] == []
    requires waits ==> !InReach(was, q, sizes[dev])
    ensures NoBuffer(sizes, waits, was, q, dev, block, now)
  {
  }

  lemma NoDevice(sizes: map<nat, nat>, waits: bool, was: Heads, q: Queues, dev: nat, block: nat, now: Queues)
    requires dev !in sizes
    ensures NoBuffer(sizes, waits, was, q, dev, block, now)
  {
  }

  /** A buffer found in the cache goes to the end of its list if it is up to date and clean. */
  ghost predicate UsedLast(heads: Heads, was: Queues, now: Queues, b: nat) {
    && b in heads && heads[b].list < |was.lru|
    && now == if heads[b].uptodate && !heads[b].dirt then was.(lru := was.lru[heads[b].list := ToEnd(was.lru[heads[b].list], b)]) else was
  }

  lemma UsedLastIs(heads: Heads, was: Queues, now: Queues, b: nat)
    requires b in heads && heads[b].list < |was.lru|
    requires now == if heads[b].uptodate && !heads[b].dirt then was.(lru := was.lru[heads[b].list := ToEnd(was.lru[heads[b].list], b)]) else was
    ensures UsedLast(heads, was, now, b)
  {
  }

  lemma MissingIs(heads: Heads, dev: nat, block: nat)
    requires forall c | Hashed(heads, c) :: !(heads[c].dev == dev && heads[c].block == block)
    ensures Missing(heads, dev, block)
  {
  }

  /** How often a buffer is among the handles. */
  function Times(held: seq<Handle>, b: nat): nat {
    if held == [] then 0 else (if held[|held| - 1].b == b then 1 else 0) + Times(held[..|held| - 1], b)
  }

  ghost function WithoutHandle(held: seq<Handle>, i: nat): seq<Handle>
    requires i < |held|
  {
    held[..i] + held[i + 1..]
  }

  /** What one use does: a look shows the block of its handle as last written, by whatever handle; only
      a change, a write or a buffer thrown away changes what users see. */
  ghost predicate Follows(sizes: map<nat, nat>, waits: bool, u: Use, was: Moment, r: Report, now: Moment) {
    match u
    case Take(dev, block) =>
      && now.flat == was.flat
      && if r.ok then
           && |now.held| == |was.held| + 1 && now.held[..|was.held|] == was.held
           && now.held[|was.held|].dev == dev && now.held[|was.held|].block == block && dev in sizes
         else now.held == was.held && NoBuffer(sizes, waits, was.heads, was.queues, dev, block, now.queues)
    case Look(i) =>
      && now.flat == was.flat && now.held == was.held && (r.ok <==> i < |was.held|)
      && (r.ok ==> r.data == At(was.flat, was.held[i].dev, was.held[i].block))
    case Change(i, contents) =>
      && now.held == was.held && (r.ok <==> i < |was.held|)
      && now.flat == if r.ok then was.flat[(was.held[i].dev, was.held[i].block) := contents] else was.flat
    case Release(i) =>
      && now.flat == was.flat && (r.ok <==> i < |was.held|)
      && now.held == if r.ok then WithoutHandle(was.held, i) else was.held
    case Forget(i) =>
      if r.ok then
        && i < |was.held| && Times(was.held, was.held[i].b) == 1 && now.held == WithoutHandle(was.held, i)
        && var h := was.held[i]; now.flat == was.flat[(h.dev, h.block) := At(now.disk, h.dev, h.block)]
      else
        && now.held == was.held && now.flat == was.flat
        && (i < |was.held| && was.held[i].b in was.heads ==> was.heads[was.held[i].b].count != 1)
    case Meanwhile(step) =>
      && now.held == was.held
      && now.flat == (if step.Put? && r.ok then was.flat[(step.dev, step.block) := step.contents] else was.flat)
      && (step.Get? && r.ok ==> r.data == At(was.flat, step.dev, step.block))
      && Stirs(step, was.heads, was.disk, r.ok, now.heads, now.disk)
      && ((step.Put? || step.Get?) && !r.ok ==> NoBuffer(sizes, waits, was.heads, was.queues, step.dev, step.block, now.queues))
  }

  /** Every handle still has the buffer of its block, alive and held often enough. */
  ghost predicate Grasped(heads: Heads, held: seq<Handle>) {
    forall i | 0 <= i < |held| :: Grip(heads, held, held[i])
  }

  predicate Grip(heads: Heads, held: seq<Handle>, h: Handle) {
    && Hashed(heads, h.b) && heads[h.b].dev == h.dev && heads[h.b].block == h.block && Alive(heads[h.b])
    && heads[h.b].count >= Times(held, h.b)
  }

  lemma {:induction false} TimesPositive(held: seq<Handle>, i: nat)
    requires i < |held|
    ensures Times(held, held[i].b) > 0
  {
    if i < |held| - 1 {
      TimesPositive(held[..|held| - 1], i);
    }
  }

  lemma {:induction false} TimesWithout(held: seq<Handle>, i: nat, b: nat)
    requires i < |held|
    ensures Times(held, b) == Times(WithoutHandle(held, i), b) + if held[i].b == b then 1 else 0
  {
    var n := |held| - 1;
    if i == n {
      assert WithoutHandle(held, i) == held[..n];
    } else {
      var rest := WithoutHandle(held, i);
      assert rest[..n - 1] == held[..n][..i] + held[..n][i + 1..] && rest[n - 1] == held[n];
      TimesWithout(held[..n], i, b);
    }
  }

  lemma TimesMore(held: seq<Handle>, h: Handle, b: nat)
    ensures Times(held + [h], b) == Times(held, b) + if h.b == b then 1 else 0
  {
    assert (held + [h])[..|held|] == held;
  }

  /** What others do does not loosen a grip. */
  lemma GraspKept(was: Heads, now: Heads, held: seq<Handle>)
    requires Grasped(was, held) && Gripped(was, now)
    ensures Grasped(now, held)
  {
    hide Times;
    forall i | 0 <= i < |held|
      ensures Grip(now, held, held[i])
    {
      TimesPositive(held, i);
      assert Grip(was, held, held[i]) && StillHeld(was[held[i].b], now[held[i].b]);
    }
  }

  /** One more handle, for a buffer just taken. */
  lemma GraspTaken(was: Heads, now: Heads, held: seq<Handle>, h: Handle)
    requires Grasped(was, held) && KeptBut(was, now, h.b)
    requires Hashed(now, h.b) && now[h.b].dev == h.dev && now[h.b].block == h.block && now[h.b].uptodate && now[h.b].count > 0
    requires h.b in was && InUse(was[h.b]) ==> HeldOnce(was[h.b], now[h.b])
    ensures Grasped(now, held + [h])
  {
    hide Times;
    var more := held + [h];
    forall i | 0 <= i < |more|
      ensures Grip(now, more, more[i])
    {
      TimesMore(held, h, more[i].b);
      if i < |held| {
        TimesPositive(held, i);
        assert Grip(was, held, held[i]);
      } else if Times(held, h.b) > 0 {
        var j := HeldWhere(held, h.b);
        assert Grip(was, held, held[j]);
      }
    }
  }

  lemma {:induction false} HeldWhere(held: seq<Handle>, b: nat) returns (j: nat)
    requires Times(held, b) > 0
    ensures j < |held| && held[j].b == b
  {
    if held[|held| - 1].b == b {
      j := |held| - 1;
    } else {
      j := HeldWhere(held[..|held| - 1], b);
    }
  }

  /** One handle given back. */
  lemma GraspReleased(was: Heads, now: Heads, held: seq<Handle>, i: nat)
    requires Grasped(was, held) && i < |held| && held[i].b in was && held[i].b in now
    requires var b := held[i].b;
             && now == was[b := now[b]] && now[b].dev == was[b].dev && now[b].block == was[b].block
             && (was[b].count > 0 ==> now[b].count == was[b].count - 1) && (Alive(was[b]) ==> Alive(now[b]))
    ensures Grasped(now, WithoutHandle(held, i))
  {
    hide Times;
    var rest := WithoutHandle(held, i);
    forall j | 0 <= j < |rest|
      ensures Grip(now, rest, rest[j])
    {
      var m := if j < i then j else j + 1;
      assert rest[j] == held[m] && Grip(was, held, held[m]);
      TimesWithout(held, i, held[m].b);
      TimesPositive(held, i);
    }
  }

  /** The only handle of a buffer thrown away. */
  lemma GraspForgotten(was: Heads, now: Heads, held: seq<Handle>, i: nat)
    requires Grasped(was, held) && i < |held| && held[i].b in was && held[i].b in now && now == was[held[i].b := now[held[i].b]]
    requires was[held[i].b].count == 1
    ensures Times(held, held[i].b) == 1 && Grasped(now, WithoutHandle(held, i))
  {
    hide Times;
    var b, rest := held[i].b, WithoutHandle(held, i);
    TimesPositive(held, i);
    TimesWithout(held, i, b);
    assert Grip(was, held, held[i]);
    forall j | 0 <= j < |rest|
      ensures Grip(now, rest, rest[j])
    {
      var m := if j < i then j else j + 1;
      assert rest[j] == held[m] && Grip(was, held, held[m]);
      TimesPositive(rest, j);
      TimesWithout(held, i, held[m].b);
    }
  }

  /** A held buffer waited for, or changed. */
  lemma GraspSame(was: Heads, now: Heads, held: seq<Handle>, b: nat)
    requires Grasped(was, held) && b in was && b in now && now == was[b := now[b]]
    requires now[b].dev == was[b].dev && now[b].block == was[b].block && now[b].count == was[b].count && (Alive(was[b]) ==> Alive(now[b]))
    ensures Grasped(now, held)
  {
    hide Times;
    forall i | 0 <= i < |held|
      ensures Grip(now, held, held[i])
    {
      assert Grip(was, held, held[i]);
    }
  }

  lemma NothingHeld(heads: Heads)
    ensures Grasped(heads, [])
  {
  }

  lemma GraspOf(heads: Heads, held: seq<Handle>, i: nat)
    requires Grasped(heads, held) && i < |held|
    ensures var h := held[i];
            && Hashed(heads, h.b) && h.b in heads && heads[h.b].dev == h.dev && heads[h.b].block == h.block
            && (heads[h.b].uptodate || heads[h.b].io != Idle) && Alive(heads[h.b]) && heads[h.b].count > 0
  {
    TimesPositive(held, i);
    assert Grip(heads, held, held[i]);
  }

  ghost predicate Writable(heads: Heads, b: nat) {
    Hashed(heads, b) && heads[b].dirt
  }

  ghost predicate InTransfer(heads: Heads, b: nat) {
    Hashed(heads, b) && heads[b].io != Idle
  }

  lemma WritableMeans(heads: Heads, b: nat)
    ensures Writable(heads, b) <==> b in heads && heads[b].dev != NODEV && heads[b].dirt
    ensures InTransfer(heads, b) <==> b in heads && heads[b].dev != NODEV && heads[b].io != Idle
  {
  }

  /** What the flush daemon, the device and the memory manager do: a dirty buffer goes into transfer,
      one in transfer comes to rest with the disk up to date, pages of unused buffers go. */
  ghost predicate Stirs(step: Step, was: Heads, disk: Disk, ok: bool, now: Heads, more: Disk) {
    match step
    case Put(_, _, _) => true
    case Get(_, _) => true
    case Flush(b, super) =>
      && more == disk
      && if Writable(was, b) then
           && b in now && now == was[b := now[b]] && now[b].dev == was[b].dev && now[b].block == was[b].block
           && now[b].data == was[b].data && now[b].io == Writing && !now[b].dirt
         else now == was
    case Complete(b) =>
      if InTransfer(was, b) then
        && b in now && now == was[b := was[b].(io := Idle, uptodate := true, data := now[b].data)]
        && more == if was[b].io == Writing then disk[(was[b].dev, was[b].block) := was[b].data] else disk
      else now == was && more == disk
    case Reclaim(tries) =>
      && (!ok ==> forall i | 0 <= i < |tries| :: PageInUse(was, tries[i], NR_SIZES))
      && more == disk && (forall b | b in now :: b in was && now[b] == was[b])
      && (ok <==> exists b :: b in was && b !in now)
  }

  lemma UserStirs(step: Step, was: Heads, disk: Disk, ok: bool, now: Heads, more: Disk)
    requires step.Put? || step.Get?
    ensures Stirs(step, was, disk, ok, now, more)
  {
  }

  lemma ReclaimStirs(tries: seq<nat>, was: Heads, disk: Disk, ok: bool, now: Heads)
    requires forall b | b in now :: b in was && now[b] == was[b]
    requires if ok then exists b :: b in was && b !in now else now == was
    requires !ok ==> forall i | 0 <= i < |tries| :: PageInUse(was, tries[i], NR_SIZES)
    ensures Stirs(Reclaim(tries), was, disk, ok, now, disk)
  {
  }

  lemma FlushStirs(b: nat, super: bool, was: Heads, disk: Disk, ok: bool, now: Heads)
    requires Writable(was, b) ==>
               && b in was && b in now && now == was[b := now[b]] && now[b].dev == was[b].dev && now[b].block == was[b].block
               && now[b].data == was[b].data && now[b].io == Writing && !now[b].dirt
    requires !Writable(was, b) ==> now == was
    ensures Stirs(Flush(b, super), was, disk, ok, now, disk)
  {
  }

  lemma CompleteStirs(b: nat, was: Heads, disk: Disk, ok: bool, now: Heads, more: Disk)
    requires InTransfer(was, b) ==>
               && b in was && b in now && now == was[b := was[b].(io := Idle, uptodate := true, data := now[b].data)]
               && more == if was[b].io == Writing then disk[(was[b].dev, was[b].block) := was[b].data] else disk
    requires !InTransfer(was, b) ==> now == was && more == disk
    ensures Stirs(Complete(b), was, disk, ok, now, more)
  {
  }

  lemma InTransferIs(heads: Heads, b: nat)
    requires InTransfer(heads, b)
    ensures Hashed(heads, b) && b in heads && heads[b].io != Idle
  {
  }

  class Cache {
    var heads: Heads
    var queues: Queues
    var pages: map<nat, seq<nat>>
    var nrBuffers: int
    var buffermem: int
    var nextHead: nat
    var nextPage: nat
    var disk: Disk
    ghost var flat: Disk
    const cacheSize: nat
    const sizes: map<nat, nat>

    ghost predicate Valid()
      reads this
    {
      && NODEV !in sizes && 0 !in sizes && (forall d | d in sizes :: sizes[d] < NR_SIZES)
      && Linked(heads, queues, {}) && HeadsOk(heads, sizes) && Unique(heads)
      && Coherent(heads, disk, flat) && PagesOk(heads, pages) && nrBuffers == |heads|
      && (forall b | b in heads :: b < nextHead) && (forall p | p in pages :: p < nextPage)
      && buffermem == PAGE_SIZE * |pages.Keys| <= cacheSize
    }

    lemma DevSize(dev: nat)
      requires Valid() && dev in sizes
      ensures sizes[dev] < NR_SIZES && dev != NODEV
    {
      hide Linked, HeadsOk, Unique, Coherent, PagesOk;
    }

    lemma NotDirty(b: nat)
      requires Valid() && Hashed(heads, b) && !heads[b].uptodate
      ensures !heads[b].dirt
    {
      hide Linked, Unique, Coherent, PagesOk;
      assert HeadOk(heads[b], sizes);
    }

    lemma WritableIs(b: nat)
      requires Valid() && Writable(heads, b)
      ensures Hashed(heads, b) && b in heads && heads[b].io == Idle && heads[b].uptodate
    {
      hide Linked, Unique, Coherent, PagesOk;
      assert HeadOk(heads[b], sizes);
    }

    lemma FreeAtRest(b: nat)
      requires Valid() && b in heads && heads[b].dev == NODEV
      ensures !InUse(heads[b])
    {
      hide Linked, Unique, Coherent, PagesOk;
      assert HeadOk(heads[b], sizes);
    }

    lemma Parts()
      requires Valid()
      ensures NODEV !in sizes && 0 !in sizes && (forall d | d in sizes :: sizes[d] < NR_SIZES)
      ensures Linked(heads, queues, {}) && HeadsOk(heads, sizes) && Unique(heads)
      ensures Coherent(heads, disk, flat) && PagesOk(heads, pages) && nrBuffers == |heads|
      ensures (forall b | b in heads :: b < nextHead) && (forall p | p in pages :: p < nextPage)
      ensures buffermem == PAGE_SIZE * |pages.Keys| <= cacheSize
    {
      hide Linked, HeadsOk, Unique, Coherent, PagesOk;
    }

    lemma Whole()
      requires NODEV !in sizes && 0 !in sizes && (forall d | d in sizes :: sizes[d] < NR_SIZES)
      requires Linked(heads, queues, {}) && HeadsOk(heads, sizes) && Unique(heads)
      requires Coherent(heads, disk, flat) && PagesOk(heads, pages) && nrBuffers == |heads|
      requires (forall b | b in heads :: b < nextHead) && (forall p | p in pages :: p < nextPage)
      requires buffermem == PAGE_SIZE * |pages.Keys| <= cacheSize
      ensures Valid()
    {
      hide Linked, HeadsOk, Unique, Coherent, PagesOk;
    }

    lemma ValidPages()
      requires Valid()
      ensures PagesOk(heads, pages)
    {
      hide PagesOk, Linked, Coherent, Unique;
    }

    lemma ValidCounts(i: nat)
      requires Valid() && i < NR_LIST
      ensures |queues.nrType| == |queues.lru| == NR_LIST && queues.nrType[i] == |queues.lru[i]|
    {
      hide Placed, Coherent, PagesOk, Unique, HeadsOk;
    }

    lemma ValidLinked()
      requires Valid()
      ensures Linked(heads, queues, {}) && |queues.lru| == |queues.nrType| == NR_LIST && |queues.free| == |queues.nrFree| == NR_SIZES
    {
      hide Placed, Coherent, PagesOk, Unique, HeadsOk;
    }

    /** An empty cache over a disk. */
    constructor (bytes: nat, blockSizes: map<nat, nat>, contents: Disk, nrHash: Pos)
      requires NODEV !in blockSizes && 0 !in blockSizes && forall d | d in blockSizes :: blockSizes[d] < NR_SIZES
      ensures Valid() && flat == disk == contents && heads == map[] && sizes == blockSizes
    {
      cacheSize, sizes, disk, flat := bytes, blockSizes, contents, contents;
      heads, pages, nrBuffers, buffermem, nextHead, nextPage := map[], map[], 0, 0, 0, 0;
      queues := NoQueues(nrHash);
      new;
      NothingLinked(nrHash);
    }

    method RemoveFromQueues(b: nat)
      requires Linked(heads, queues, {}) && b in heads
      modifies this`queues
      ensures Linked(heads, queues, {b}) && queues == Detached(heads, old(queues), b)
    {
      DetachedLinked(heads, queues, b);
      var h := heads[b];
      if h.dev == NODEV {
        queues := queues.(free := queues.free[h.size := Without(queues.free[h.size], b)],
                          nrFree := queues.nrFree[h.size := queues.nrFree[h.size] - 1]);
      } else {
        var k := Queue(h.dev, h.block, |queues.chains|);
        queues := queues.(nrType := queues.nrType[h.list := queues.nrType[h.list] - 1],
                          nrSt := queues.nrSt[h.size := queues.nrSt[h.size][h.list := queues.nrSt[h.size][h.list] - 1]]);
        queues := queues.(chains := queues.chains[k := Without(queues.chains[k], b)]);
        queues := queues.(lru := queues.lru[h.list := Without(queues.lru[h.list], b)]);
      }
    }

    method InsertIntoQueues(b: nat)
      requires Linked(heads, queues, {b}) && b in heads
      modifies this`queues
      ensures Linked(heads, queues, {}) && queues == Attached(heads, old(queues), b)
    {
      AttachedLinked(heads, queues, b);
      var h := heads[b];
      if h.dev == NODEV {
        queues := queues.(free := queues.free[h.size := queues.free[h.size] + [b]],
                          nrFree := queues.nrFree[h.size := queues.nrFree[h.size] + 1]);
      } else {
        var k := Queue(h.dev, h.block, |queues.chains|);
        queues := queues.(lru := queues.lru[h.list := queues.lru[h.list] + [b]]);
        queues := queues.(nrType := queues.nrType[h.list := queues.nrType[h.list] + 1],
                          nrSt := queues.nrSt[h.size := queues.nrSt[h.size][h.list := queues.nrSt[h.size][h.list] + 1]]);
        queues := queues.(chains := queues.chains[k := [b] + queues.chains[k]]);
      }
    }

    method PutLastLru(b: nat)
      requires Valid() && Hashed(heads, b)
      modifies this`queues
      ensures Valid() && queues == old(queues).(lru := old(queues).lru[heads[b].list := ToEnd(old(queues).lru[heads[b].list], b)])
    {
      LastLinked(heads, queues, b);
      var i := heads[b].list;
      queues := queues.(lru := queues.lru[i := Without(queues.lru[i], b) + [b]]);
    }

    /** Which list a buffer belongs on now; a locked one goes to either list of locked ones. */
    method RefileBuffer(b: nat, now: nat, super: bool)
      requires Valid() && Hashed(heads, b)
      modifies this`heads, this`queues
      ensures Valid()
      ensures Hashed(heads, b) && heads == old(heads)[b := old(heads)[b].(list := heads[b].list, time := heads[b].time)]
      ensures heads[b].list == if heads[b].dirt then DIRTY
                               else if heads[b].io != Idle then (if super && old(heads)[b].list != LOCKED then LOCKED1 else LOCKED)
                               else if old(heads)[b].list == SHARED then UNSHARED else CLEAN
      ensures queues.free == old(queues).free
      ensures |queues.lru| == |old(queues).lru| == NR_LIST && old(heads)[b].list < NR_LIST
      ensures forall i | 0 <= i < NR_LIST && i != old(heads)[b].list && i != heads[b].list :: queues.lru[i] == old(queues).lru[i]
      ensures heads[b].list != old(heads)[b].list ==>
                queues.lru[old(heads)[b].list] == Without(old(queues).lru[old(heads)[b].list], b)
      ensures heads[b].time == (var l := heads[b].list;
                                if l == CLEAN || (l != old(heads)[b].list && (l == DIRTY || l == UNSHARED)) then now else old(heads)[b].time)
      ensures heads[b].list < NR_LIST &&
              queues.lru == (if heads[b].list == old(heads)[b].list != LOCKED1 then old(queues).lru
                             else MovedTo(old(queues).lru, b, old(heads)[b].list, heads[b].list))
    {
      hide Linked, Coherent, PagesOk, Unique, HeadsOk, Without;
      LinkedList(heads, queues, b);
      var h := heads[b];
      var dispose := if h.dirt then DIRTY
                     else if h.io != Idle then LOCKED
                     else if h.list == SHARED then UNSHARED else CLEAN;
      var time := if dispose == CLEAN then now else h.time;
      if dispose == h.list {
        SetTime(b, time);
        return;
      }
      if dispose == DIRTY || dispose == UNSHARED {
        time := now;
      }
      if dispose == LOCKED && super {
        dispose := LOCKED1;
      }
      Relist(b, dispose, time);
    }

    method FindBuffer(dev: nat, block: nat, size: nat) returns (found: bool, b: nat)
      requires Valid() && dev in sizes && size == sizes[dev]
      ensures found ==> Hashed(heads, b) && heads[b].dev == dev && heads[b].block == block && heads[b].size == size
      ensures !found ==> forall c | Hashed(heads, c) :: !(heads[c].dev == dev && heads[c].block == block)
    {
      hide CountSize, Queue, Coherent, Unique, PagesOk;
      var q := Queue(dev, block, |queues.chains|);
      var chain := queues.chains[q];
      ghost var place := ChainPlace(heads, {}, |queues.chains|);
      forall j | 0 <= j < |chain|
        ensures Hashed(heads, chain[j])
      {
        assert chain[j] in chain && chain[j] in place;
      }
      var i := 0;
      while i < |chain|
        invariant i <= |chain|
        invariant forall j | 0 <= j < i :: !(heads[chain[j]].dev == dev && heads[chain[j]].block == block)
      {
        b := chain[i];
        assert b in chain && b in place;
        if heads[b].dev == dev && heads[b].block == block {
          if heads[b].size == size {
            return true, b;
          }
          assert false;
        }
        i := i + 1;
      }
      forall c | Hashed(heads, c)
        ensures !(heads[c].dev == dev && heads[c].block == block)
      {
        assert c in place && c in queues.chains[place[c]];
      }
      found, b := false, 0;
    }

    /** The device is done with a buffer. */
    method EndIo(b: nat)
      requires Valid() && Hashed(heads, b) && heads[b].io != Idle
      modifies this`heads, this`disk
      ensures Valid() && b in heads
      ensures heads == old(heads)[b := old(heads)[b].(io := Idle, uptodate := true, data := heads[b].data)]
      ensures heads[b].data == At(flat, heads[b].dev, heads[b].block)
      ensures var h := old(heads)[b]; disk == if h.io == Writing then old(disk)[(h.dev, h.block) := h.data] else old(disk)
    {
      hide Linked, Coherent, PagesOk, Unique;
      var h := heads[b];
      if h.io == Writing {
        WrittenCoherent(heads, disk, flat, b);
        disk := disk[(h.dev, h.block) := h.data];
        h := h.(io := Idle, uptodate := true);
      } else {
        ReadCoherent(heads, disk, flat, b);
        h := h.(io := Idle, uptodate := true, data := At(disk, h.dev, h.block));
      }
      SameShape(heads, heads[b := h], queues, sizes, pages);
      heads := heads[b := h];
      Shown(heads, disk, flat, b);
    }

    method WaitOnBuffer(b: nat)
      requires Valid() && Hashed(heads, b)
      modifies this`heads, this`disk
      ensures Valid() && Hashed(heads, b) && heads[b].io == Idle
      ensures heads == old(heads)[b := old(heads)[b].(io := Idle, uptodate := heads[b].uptodate, data := heads[b].data)]
      ensures if old(heads)[b].io == Idle then heads == old(heads) else heads[b].uptodate
      ensures heads[b].uptodate ==> heads[b].data == At(flat, heads[b].dev, heads[b].block)
    {
      hide Linked, PagesOk, Unique;
      if heads[b].io != Idle {
        EndIo(b);
      }
    }

    /** ll_rw_block hands a buffer to the device. */
    method StartIo(b: nat, write: bool, now: nat, super: bool)
      requires Valid() && Hashed(heads, b) && heads[b].io == Idle
      requires if write then heads[b].uptodate else !heads[b].dirt
      modifies this`heads, this`queues
      ensures Valid() && Hashed(heads, b)
      ensures heads == old(heads)[b := old(heads)[b].(io := if write then Writing else Reading, uptodate := false,
                                                      dirt := false, list := heads[b].list, time := heads[b].time)]
      ensures heads[b].list == if old(heads)[b].dirt && old(heads)[b].list == DIRTY then (if super then LOCKED1 else LOCKED)
                               else old(heads)[b].list
    {
      hide Linked, Coherent, PagesOk, Unique;
      var io := if write then Writing else Reading;
      StartedCoherent(heads, disk, flat, b, io);
      ghost var more := heads[b := heads[b].(io := io, uptodate := false, dirt := false)];
      SameShape(heads, more, queues, sizes, pages);
      var wasDirty := heads[b].dirt;
      heads := heads[b := heads[b].(io := io, uptodate := false, dirt := false)];
      if wasDirty && heads[b].list == DIRTY {
        RefileBuffer(b, now, super);
      }
    }

    /** A user puts new contents into a buffer it holds; only this changes the flat array. */
    method Store(b: nat, data: Data, now: nat)
      requires Valid() && Hashed(heads, b) && heads[b].count > 0 && heads[b].io == Idle
      modifies this`heads, this`queues, this`flat
      ensures Valid() && Hashed(heads, b) && heads[b].data == data && heads[b].uptodate
      ensures heads == old(heads)[b := old(heads)[b].(data := data, dirt := true, uptodate := true,
                                                      list := heads[b].list, time := heads[b].time)]
      ensures heads[b].list == if old(heads)[b].dirt then old(heads)[b].list else DIRTY
      ensures flat == old(flat)[(old(heads)[b].dev, old(heads)[b].block) := data]
    {
      hide Linked, Coherent, PagesOk, Unique, HeadsOk;
      StoredOk(heads, sizes, b, data);
      StoredCoherent(heads, disk, flat, b, data);
      ghost var more := heads[b := heads[b].(data := data, dirt := true, uptodate := true)];
      SameShape(heads, more, queues, sizes, pages);
      var wasDirty := heads[b].dirt;
      flat := flat[(heads[b].dev, heads[b].block) := data];
      heads := heads[b := heads[b].(data := data, dirt := true, uptodate := true)];
      if !wasDirty && heads[b].list != DIRTY {
        RefileBuffer(b, now, false);
      }
    }

    method SetCount(b: nat, n: nat)
      requires Valid() && Hashed(heads, b)
      modifies this`heads
      ensures Valid() && Hashed(heads, b) && heads == old(heads)[b := old(heads)[b].(count := n)]
    {
      hide Linked, Coherent, PagesOk, Unique;
      ghost var more := heads[b := heads[b].(count := n)];
      MetaChanges(heads, more, disk, flat, sizes, pages);
      SamePlaces(heads, more, queues);
      heads := heads[b := heads[b].(count := n)];
    }

    method GetHashTable(dev: nat, block: nat, size: nat) returns (found: bool, b: nat)
      requires Valid() && dev in sizes && size == sizes[dev]
      modifies this`heads, this`disk
      ensures Valid()
      ensures found ==> b in old(heads) && b in heads && Holding(heads, flat, b, dev, block)
      ensures found ==> heads == old(heads)[b := old(heads)[b].(count := old(heads)[b].count + 1, io := Idle,
                                                                uptodate := heads[b].uptodate, data := heads[b].data)]
      ensures found && Alive(old(heads)[b]) ==> heads[b].uptodate
      ensures !found ==> heads == old(heads) && forall c | Hashed(heads, c) :: !(heads[c].dev == dev && heads[c].block == block)
    {
      hide Linked, PagesOk, Unique, Coherent;
      found, b := FindBuffer(dev, block, size);
      if found {
        SetCount(b, heads[b].count + 1);
        WaitOnBuffer(b);
      }
    }

    /** An unreferenced, clean, unlocked buffer goes to the free list. */
    method Recycle(b: nat)
      requires Valid() && Hashed(heads, b) && !InUse(heads[b])
      modifies this`heads, this`queues
      ensures Valid() && !Hashed(heads, b) && heads == old(heads)[b := old(heads)[b].(dev := NODEV)]
      ensures |queues.lru| == |old(queues).lru| == NR_LIST && old(heads)[b].list < NR_LIST
      ensures forall i | 0 <= i < NR_LIST && i != old(heads)[b].list :: queues.lru[i] == old(queues).lru[i]
      ensures queues.lru[old(heads)[b].list] == Without(old(queues).lru[old(heads)[b].list], b)
      ensures var s := old(heads)[b].size;
              s < |old(queues).free| && queues.free == old(queues).free[s := old(queues).free[s] + [b]]
    {
      hide *;
      Parts();
      HashedIn(heads, b);
      ghost var more := heads[b := heads[b].(dev := NODEV)];
      LinkedList(heads, queues, b);
      FreedOk(heads, more, disk, flat, sizes, b);
      LessHashed(heads, more, pages, b);
      FreedLists(heads, more, queues, b);
      RemoveFromQueues(b);
      OutChanges(heads, more, queues, b);
      heads := heads[b := heads[b].(dev := NODEV)];
      InsertIntoQueues(b);
      Whole();
    }

    /** A buffer is released; it is refiled first, and its count never goes below zero. */
    method Brelse(b: nat, now: nat, super: bool)
      requires Valid() && Hashed(heads, b)
      modifies this`heads, this`queues, this`disk
      ensures Valid() && Hashed(heads, b) && heads[b].io == Idle
      ensures heads == old(heads)[b := heads[b]] && heads[b].dirt == old(heads)[b].dirt
      ensures heads[b].dev == old(heads)[b].dev && heads[b].block == old(heads)[b].block
      ensures heads[b].count == if old(heads)[b].count > 0 then old(heads)[b].count - 1 else 0
      ensures heads[b].list == if heads[b].dirt then DIRTY else if old(heads)[b].list == SHARED then UNSHARED else CLEAN
      ensures heads[b].list == CLEAN ==> heads[b].time == now
      ensures Alive(old(heads)[b]) ==> heads[b].uptodate
    {
      hide *;
      HashedIn(heads, b);
      AliveIs(heads[b]);
      WaitOnBuffer(b);
      assert heads == old(heads)[b := heads[b]];
      RefileBuffer(b, now, super);
      assert heads == old(heads)[b := heads[b]];
      if heads[b].count > 0 {
        SetCount(b, heads[b].count - 1);
        assert heads == old(heads)[b := heads[b]];
      }
    }

    /** What a buffer had not yet written is given up. */
    method Drop(b: nat)
      requires Valid() && Hashed(heads, b) && heads[b].io == Idle
      modifies this`heads, this`flat
      ensures Valid() && Hashed(heads, b)
      ensures heads == old(heads)[b := old(heads)[b].(dirt := false, uptodate := false, count := 0)]
      ensures flat == old(flat)[(heads[b].dev, heads[b].block) := At(disk, heads[b].dev, heads[b].block)]
    {
      hide Linked, PagesOk, Unique, Coherent, At;
      ghost var more := heads[b := heads[b].(dirt := false, uptodate := false, count := 0)];
      ForgottenCoherent(heads, disk, flat, b);
      SameShape(heads, more, queues, sizes, pages);
      flat := flat[(heads[b].dev, heads[b].block) := At(disk, heads[b].dev, heads[b].block)];
      heads := heads[b := heads[b].(dirt := false, uptodate := false, count := 0)];
    }

    /** Throws a buffer away together with what it had not yet written: the block is then what the
        disk has. */
    method Bforget(b: nat, now: nat) returns (done: bool)
      requires Valid() && Hashed(heads, b)
      modifies this`heads, this`queues, this`disk, this`flat
      ensures Valid() && done == (old(heads)[b].count == 1)
      ensures done ==> b in heads && !Hashed(heads, b) && heads == old(heads)[b := heads[b]]
      ensures done ==> heads[b].list == if old(heads)[b].list == DIRTY then CLEAN else old(heads)[b].list
      ensures !done ==>
                && flat == old(flat) && Hashed(heads, b) && heads == old(heads)[b := heads[b]]
                && heads[b].dev == old(heads)[b].dev && heads[b].block == old(heads)[b].block
                && heads[b].count == old(heads)[b].count && (Alive(old(heads)[b]) ==> Alive(heads[b]))
      ensures done ==> flat == old(flat)[(old(heads)[b].dev, old(heads)[b].block) :=
                                           At(disk, old(heads)[b].dev, old(heads)[b].block)]
    {
      hide *;
      HashedIn(heads, b);
      AliveIs(heads[b]);
      WaitOnBuffer(b);
      AliveIs(heads[b]);
      assert heads == old(heads)[b := heads[b]];
      if heads[b].count != 1 {
        return false;
      }
      Drop(b);
      assert heads == old(heads)[b := heads[b]];
      DirtyNotShared();
      if heads[b].list == DIRTY {
        RefileBuffer(b, now, false);
        assert heads == old(heads)[b := heads[b]];
      }
      AtRest(heads[b]);
      Recycle(b);
      assert heads == old(heads)[b := heads[b]];
      done := true;
    }

    /** The next usable buffer on a list, among its last n. Dirty ones met on the way are moved to
        the list of dirty buffers. */
    method Scan(i: nat, size: nat, n: nat, now: nat) returns (c: Option, left: nat)
      requires Valid() && i < NR_LIST && i != DIRTY && i != SHARED && |queues.lru| == NR_LIST && n <= |queues.lru[i]|
      modifies this`heads, this`queues
      ensures Valid() && Refiled(old(heads), heads) && |queues.lru| == NR_LIST
      ensures forall j | 0 <= j < NR_LIST && j != i && j != DIRTY :: queues.lru[j] == old(queues).lru[j]
      ensures queues.free == old(queues).free
      ensures CandidateAt(heads, queues.lru[i], c, left, i, size)
      ensures FirstOpen(old(heads), old(queues).lru[i][|old(queues).lru[i]| - n..], c, left, i, size)
      ensures SameEnd(old(queues).lru[i], queues.lru[i], left) && left <= n
    {
      hide *;
      left := n;
      RefiledNot(heads);
      ghost var rest := queues.lru[i][|queues.lru[i]| - n..];
      PassedNone(heads, rest, i, size);
      EndOf(queues.lru[i], n);
      while left > 0
        invariant Valid() && Refiled(old(heads), heads) && |queues.lru| == NR_LIST && left <= n
        invariant forall j | 0 <= j < NR_LIST && j != i && j != DIRTY :: queues.lru[j] == old(queues).lru[j]
        invariant queues.free == old(queues).free
        invariant Passed(old(heads), rest, left, i, size) && SameEnd(rest, queues.lru[i], left)
      {
        EndIs(rest, queues.lru[i], left);
        var at := |queues.lru[i]| - left;
        var bh := queues.lru[i][at];
        ValidLinked();
        OnList(heads, queues, i, at);
        RefiledAt(old(heads), heads, bh);
        if heads[bh].dirt {
          ghost var was := heads;
          ghost var list := queues.lru[i];
          RefileBuffer(bh, now, false);
          RefiledOne(old(heads), was, heads, bh);
          OffList(list, at);
          PassedOne(old(heads), rest, left, i, size);
          EndWithout(rest, list, queues.lru[i], left);
          left := left - 1;
          continue;
        }
        if heads[bh].count > 0 || heads[bh].size != size {
          PassedOne(old(heads), rest, left, i, size);
          EndLess(rest, queues.lru[i], left);
          left := left - 1;
          continue;
        }
        if heads[bh].io != Idle && (i == LOCKED || i == LOCKED1) {
          PassedStop(old(heads), rest, left, i, size);
          break;
        }
        if heads[bh].io != Idle {
          PassedOne(old(heads), rest, left, i, size);
          EndLess(rest, queues.lru[i], left);
          left := left - 1;
          continue;
        }
        CandidateFound(heads, queues.lru[i], bh, left, i, size);
        PassedFound(old(heads), rest, left, i, size);
        EndThrough(old(queues).lru[i], rest, queues.lru[i], n, left);
        return Some(bh), left;
      }
      if left == 0 {
        PassedAll(old(heads), rest, i, size);
      }
      NoCandidate(heads, queues.lru[i], i, size);
      EndNone(old(queues).lru[i], queues.lru[i]);
      c, left := None, 0;
    }

    /** The first usable buffer of every list that is taken from. */
    method Candidates(size: nat, now: nat) returns (cands: seq<Option>, lefts: seq<nat>)
      requires Valid()
      modifies this`heads, this`queues
      ensures Valid() && Refiled(old(heads), heads) && |queues.lru| == NR_LIST && queues.free == old(queues).free
      ensures AllCandidates(heads, queues.lru, cands, lefts, size, NR_LIST)
      ensures AllStanding(old(heads), old(queues).lru, [], queues.lru, cands, lefts, size)
    {
      hide *;
      cands, lefts := seq(NR_LIST, i => None), seq(NR_LIST, i => 0);
      RefiledNot(heads);
      ElectsIs();
      ValidLinked();
      NoneYet(heads, queues.lru, cands, lefts, size);
      StandingNone(heads, queues.lru, cands, lefts, size);
      for i := 0 to NR_LIST
        invariant Valid() && Refiled(old(heads), heads) && |queues.lru| == NR_LIST && queues.free == old(queues).free
        invariant |cands| == NR_LIST && |lefts| == NR_LIST && AllCandidates(heads, queues.lru, cands, lefts, size, i)
        invariant StandingTo(old(heads), old(queues).lru, queues.lru, cands, lefts, size, i)
      {
        var c, left := None, 0;
        ghost var was, lru := heads, queues.lru;
        ValidLinked();
        if i != DIRTY && i != SHARED && queues.nrType[i] != 0 {
          ValidCounts(i);
          c, left := Scan(i, size, queues.nrType[i], now);
          RefiledTrans(old(heads), was, heads);
          StandingNext(old(heads), was, old(queues).lru, lru, queues.lru, cands, lefts, size, i, c, left);
        } else {
          NoCandidate(heads, queues.lru[i], i, size);
          RefiledNot(heads);
          ValidCounts(i);
          StandingSkip(old(heads), old(queues).lru, queues.lru, cands, lefts, size, i);
        }
        RefiledUndisturbed(was, heads, i);
        OthersStay(was, heads, lru, queues.lru, cands, lefts, size, i, i);
        OneMore(heads, queues.lru, cands, lefts, size, i, i, c, left);
        cands, lefts := cands[i := c], lefts[i := left];
      }
      StandingAll(old(heads), old(queues).lru, queues.lru, cands, lefts, size);
    }

    /** Which candidate was used longest ago. */
    method Winner(cands: seq<Option>) returns (winner: nat)
      requires |cands| == NR_LIST && forall i | 0 <= i < NR_LIST && cands[i].Some? :: cands[i].b in heads
      ensures winner <= NR_LIST && if winner < NR_LIST then cands[winner].Some? && Wins(heads, cands, winner) else NobodyWins(heads, cands)
    {
      winner := NR_LIST;
      var best := UINT_MAX;
      for i := 0 to NR_LIST
        invariant winner <= NR_LIST && (winner < NR_LIST ==> cands[winner].Some? && best == heads[cands[winner].b].time)
        invariant winner == NR_LIST ==> best == UINT_MAX
        invariant forall j | 0 <= j < i && cands[j].Some? ::
                    best <= heads[cands[j].b].time && (j < winner < NR_LIST ==> best < heads[cands[j].b].time)
        invariant best <= UINT_MAX && winner <= NR_LIST && (winner < NR_LIST ==> winner < i && best < UINT_MAX)
      {
        if cands[i].Some? && heads[cands[i].b].time < best {
          best := heads[cands[i].b].time;
          winner := i;
        }
      }
    }

    lemma ListHashed(i: nat)
      requires Valid() && i < NR_LIST
      ensures |queues.lru| == NR_LIST && forall b | b in queues.lru[i] :: b in heads && heads[b].dev != NODEV
    {
      hide CountSize, Coherent, Unique, PagesOk, HeadsOk;
    }

    /** Recycles winners until enough memory is found or no list has a usable buffer left. The
        candidates are the first ones of the lists as they were in the state (first, lists). */
    method TakeWinners(size: nat, wanted: int, first: seq<Option>, firstLefts: seq<nat>, now: nat,
                       ghost was: Heads, ghost lists: seq<seq<nat>>)
      returns (needed: int, ghost taken: seq<nat>)
      requires Valid() && size < NR_SIZES && |queues.lru| == |lists| == NR_LIST && |queues.free| == NR_SIZES
      requires AllCandidates(heads, queues.lru, first, firstLefts, size, NR_LIST)
      requires AllStanding(was, lists, [], queues.lru, first, firstLefts, size) && Refiled(was, heads)
      modifies this`heads, this`queues
      ensures Valid() && Kept(old(heads), heads) && Unhashed(old(heads), heads)
      ensures needed == wanted - Worth(taken, size) && (if taken == [] then true else needed + Bytes(size) > 0 && wanted > 0)
      ensures queues.free == old(queues).free[size := old(queues).free[size] + taken]
      ensures Elections(was, lists, size, taken) && (needed > 0 ==> NoneLeft(was, lists, size, taken))
    {
      hide *;
      needed, taken := wanted, [];
      var cands, lefts := first, firstLefts;
      KeptSelf(heads);
      UnhashedSelf(heads);
      RefiledButNone(was, heads);
      NoElections(was, lists, size);
      ElectsIs();
      WorthMore([], 0, size);
      assert queues.free[size] + taken == queues.free[size];
      while needed > 0
        invariant Valid() && |queues.lru| == NR_LIST && needed == wanted - Worth(taken, size)
        invariant taken != [] ==> needed + Bytes(size) > 0 && wanted > 0
        invariant queues.free == old(queues).free[size := old(queues).free[size] + taken]
        invariant Kept(old(heads), heads) && Unhashed(old(heads), heads) && RefiledBut(was, heads, taken)
        invariant AllCandidates(heads, queues.lru, cands, lefts, size, NR_LIST)
        invariant AllStanding(was, lists, taken, queues.lru, cands, lefts, size) && Elections(was, lists, size, taken)
        decreases needed
      {
        CandidateHeads(heads, queues.lru, cands, lefts, size);
        var i := Winner(cands);
        if i == NR_LIST {
          NobodyLeft(was, lists, taken, heads, queues.lru, cands, lefts, size);
          break;
        }
        var b, left := cands[i].b, lefts[i];
        CandidateFacts(heads, queues.lru, cands, lefts, size, i);
        ghost var mid, lru := heads, queues.lru;
        UsableAt(heads, b, size);
        ValidLinked();
        OnList(heads, queues, i, |lru[i]| - left);
        ElectedNext(was, lists, taken, heads, queues.lru, cands, lefts, size, i);
        assert old(queues).free[size] + taken + [b] == old(queues).free[size] + (taken + [b]);
        Recycle(b);
        KeptFree(old(heads), mid, heads, b);
        UnhashedFree(old(heads), mid, heads, b);
        FreedUndisturbed(mid, heads, b, i);
        RefiledButTaken(was, mid, heads, taken, b);
        OffList(lru[i], |lru[i]| - left);
        EndWithout(lists[i], lru[i], queues.lru[i], left);
        BytesPositive(size);
        WorthMore(taken, b, size);
        needed := needed - Bytes(size);
        left := left - 1;
        ghost var freed, mid', lru' := taken + [b], heads, queues.lru;
        ListHashed(i);
        var c := None;
        if left > 0 {
          c, left := Scan(i, size, left, now);
          KeptRefiled(old(heads), mid', heads);
          UnhashedRefiled(old(heads), mid', heads);
          RefiledUndisturbed(mid', heads, i);
          RefiledButMore(was, mid', heads, freed);
        } else {
          NoCandidate(heads, queues.lru[i], i, size);
          NothingBehind(heads, lru'[i], i, size);
          RefiledNot(heads);
          RefiledUndisturbed(mid', heads, i);
          EndNone(lru'[i], queues.lru[i]);
        }
        NextAllStand(was, lists, taken, mid, lru, cands, lefts, size, i, mid', lru', c, left, queues.lru);
        UndisturbedTrans(mid, mid', heads, i);
        OthersStay(mid, heads, lru, queues.lru, cands, lefts, size, i, NR_LIST);
        OneMore(heads, queues.lru, cands, lefts, size, i, NR_LIST, c, left);
        cands, lefts := cands[i := c], lefts[i := left];
        taken := freed;
      }
    }

    /** One more free buffer on a page, placed k from the front of its free list. */
    method GrowOne(size: nat, page: nat, k: nat)
      requires Valid() && size < NR_SIZES && page in pages && |queues.free| == NR_SIZES && k <= |queues.free[size]|
      requires forall c | c in heads && heads[c].page == page :: heads[c].size == size
      modifies this`heads, this`queues, this`pages, this`nrBuffers, this`nextHead
      ensures Valid() && old(nextHead) !in old(heads)
      ensures heads == old(heads)[old(nextHead) := Head(NODEV, 0, size, 0, false, Idle, false, 0, 0, [], page)]
      ensures |queues.free| == NR_SIZES && queues.lru == old(queues).lru
      ensures queues.free == old(queues).free[size := old(queues).free[size][..k] + [old(nextHead)] + old(queues).free[size][k..]]
      ensures pages.Keys == old(pages).Keys
    {
      hide *;
      Parts();
      NewHeadOk(heads, sizes, nextHead, size, page);
      var b, h := nextHead, Head(NODEV, 0, size, 0, false, Idle, false, 0, 0, [], page);
      ghost var more := heads[b := h];
      GrownLinked(heads, queues, b, h, k);
      AddedCoherent(heads, disk, flat, b, h);
      AddedPage(heads, pages, b, h);
      queues := queues.(free := queues.free[size := queues.free[size][..k] + [b] + queues.free[size][k..]],
                        nrFree := queues.nrFree[size := queues.nrFree[size] + 1]);
      heads, pages := heads[b := h], pages[page := pages[page] + [b]];
      nrBuffers, nextHead := nrBuffers + 1, nextHead + 1;
      Whole();
    }

    /** A page more of free buffers of one size, unless memory is short. */
    method GrowBuffers(size: nat) returns (ok: bool)
      requires Valid() && size < NR_SIZES
      modifies this`heads, this`queues, this`pages, this`nrBuffers, this`buffermem, this`nextHead, this`nextPage
      ensures Valid() && Kept(old(heads), heads) && (forall b | b in old(heads) :: b in heads && heads[b] == old(heads)[b])
      ensures forall b | b in heads && b !in old(heads) :: heads[b].dev == NODEV && heads[b].size == size
      ensures ok ==> |queues.free| == |old(queues).free| == NR_SIZES && buffermem == old(buffermem) + PAGE_SIZE
                     && |queues.free[size]| * Bytes(size) == |old(queues).free[size]| * Bytes(size) + PAGE_SIZE
      ensures ok ==> queues.lru == old(queues).lru && size < |old(queues).free| && AddedInFront(old(heads), old(queues).free, queues.free, size)
      ensures !ok ==> heads == old(heads) && queues == old(queues) && buffermem == old(buffermem)
    {
      hide *;
      KeptSelf(heads);
      if buffermem + PAGE_SIZE > cacheSize {
        return false;
      }
      var got: bool := *;
      if !got {
        return false;
      }
      var page := NewPage();
      ValidLinked();
      Rotate(size);
      var count := PerPage(size);
      ghost var before, turned := |queues.free[size]|, queues.free[size];
      TurnedSize(old(queues).free[size]);
      assert turned[0..] == turned;
      for k := 0 to count
        invariant Valid() && page in pages && |queues.free| == NR_SIZES && k <= |queues.free[size]| == before + k
        invariant queues.lru == old(queues).lru && queues.free == old(queues).free[size := queues.free[size]]
        invariant queues.free[size][k..] == turned && forall i | 0 <= i < k :: queues.free[size][i] !in old(heads)
        invariant buffermem == old(buffermem) + PAGE_SIZE
        invariant forall b | b in old(heads) :: b in heads && heads[b] == old(heads)[b]
        invariant forall b | b in heads && b !in old(heads) :: heads[b].dev == NODEV && heads[b].size == size && heads[b].page == page
        invariant forall b | b in old(heads) :: old(heads)[b].page != page
      {
        ghost var list := queues.free[size];
        GrowOne(size, page, k);
        PutInAt(list, queues.free[size], k, old(heads));
      }
      AddedInFrontIs(old(heads), old(queues).free, queues.free, size, count);
      KeptMore(old(heads), heads);
      PerPageFills(size, before);
      ok := true;
    }

    /** A page without buffers yet, counted. */
    method NewPage() returns (page: nat)
      requires Valid() && buffermem + PAGE_SIZE <= cacheSize
      modifies this`pages, this`nextPage, this`buffermem
      ensures Valid() && page in pages && buffermem == old(buffermem) + PAGE_SIZE && forall b | b in heads :: heads[b].page != page
    {
      hide *;
      Parts();
      page := nextPage;
      EmptyPage(heads, pages, page);
      pages, nextPage := pages[page := []], nextPage + 1;
      buffermem := buffermem + PAGE_SIZE;
      Whole();
    }

    /** The head of a free list goes to its end. */
    method Rotate(size: nat)
      requires Valid() && size < NR_SIZES
      modifies this`queues
      ensures Valid() && |queues.free| == |old(queues).free| == NR_SIZES && queues.lru == old(queues).lru
      ensures queues.free == old(queues).free[size := Turned(old(queues).free[size])]
    {
      hide Coherent, Unique, PagesOk, Linked;
      ValidLinked();
      if queues.free[size] != [] {
        RotatedLinked(heads, queues, size);
        var b := queues.free[size][0];
        queues := queues.(free := queues.free[size := Without(queues.free[size], b) + [b]]);
      }
    }

    /** Frees the page of a buffer if nothing on it is in use. */
    method TryToFree(b: nat) returns (ok: bool)
      requires Valid() && b in heads
      modifies this`heads, this`queues, this`pages, this`nrBuffers, this`buffermem
      ensures Valid() && Kept(old(heads), heads)
      ensures ok <==> forall c | c in old(heads) && old(heads)[c].page == old(heads)[b].page :: !InUse(old(heads)[c])
      ensures forall c | c in heads :: c in old(heads) && heads[c] == old(heads)[c]
      ensures forall c | c in old(heads) && c !in heads :: ok && old(heads)[c].page == old(heads)[b].page
      ensures ok ==> b !in heads
      ensures !ok ==> heads == old(heads) && queues == old(queues) && pages == old(pages) && buffermem == old(buffermem)
      ensures ok ==> pages.Keys == old(pages).Keys - {old(heads)[b].page} && buffermem == old(buffermem) - PAGE_SIZE
      ensures forall s | 0 <= s < NR_SIZES && s != old(heads)[b].size :: Spared(old(heads), old(queues), heads, queues, s)
    {
      hide *;
      ghost var was, q := heads, queues;
      ValidLinked();
      forall s | 0 <= s < NR_SIZES
        ensures Spared(heads, q, heads, q, s)
      {
        SparedSelf(heads, q, s);
      }
      KeptSelf(heads);
      var page := heads[b].page;
      ValidPages();
      PageRing(heads, pages, page, b);
      var ring := pages[page];
      var i := 0;
      while i < |ring|
        invariant i <= |ring| && forall j | 0 <= j < i :: !InUse(heads[ring[j]])
        modifies {}
      {
        var tmp := heads[ring[i]];
        if tmp.count > 0 || tmp.dirt || tmp.io != Idle {
          Busy(tmp);
          RingInUse(heads, pages, page, ring[i]);
          return false;
        }
        AtRest(tmp);
        i := i + 1;
      }
      RingFree(heads, pages, page, ring);
      while pages[page] != []
        invariant Valid() && page in pages && |pages[page]| <= |ring|
        invariant forall c | c in heads :: c in old(heads) && heads[c] == old(heads)[c]
        invariant forall c | c in old(heads) && c !in heads :: old(heads)[c].page == page
        invariant pages.Keys == old(pages).Keys && buffermem == old(buffermem)
        invariant forall s | 0 <= s < NR_SIZES && s != was[b].size :: Spared(was, q, heads, queues, s)
        decreases |pages[page]|
      {
        ValidPages();
        RingMember(heads, pages, page);
        ghost var mid, m := heads, queues;
        var c := pages[page][0];
        SameSize(was, old(pages), b, c);
        FreeHead(c);
        forall s | 0 <= s < NR_SIZES && s != was[b].size
          ensures Spared(was, q, heads, queues, s)
        {
          SparedTrans(was, q, mid, m, heads, queues, s);
        }
      }
      ValidPages();
      RingGone(heads, pages, page, b);
      DropPage(page);
      KeptRest(old(heads), heads, page);
      ok := true;
    }

    method FreeHead(b: nat)
      requires Valid() && b in heads && !InUse(heads[b])
      modifies this`heads, this`queues, this`pages, this`nrBuffers
      ensures Valid() && heads == old(heads) - {b} && pages.Keys == old(pages).Keys && heads.Keys == old(heads).Keys - {b}
      ensures old(heads)[b].page in pages && old(heads)[b].page in old(pages)
      ensures |pages[old(heads)[b].page]| == |old(pages)[old(heads)[b].page]| - 1
      ensures forall s | 0 <= s < NR_SIZES && s != old(heads)[b].size :: Spared(old(heads), old(queues), heads, queues, s)
    {
      hide *;
      Parts();
      ghost var q := queues;
      forall s | 0 <= s < NR_SIZES && s != heads[b].size
        ensures Spared(heads, q, heads - {b}, Detached(heads, q, b), s)
      {
        GoneSpares(heads, q, b, s);
      }
      ghost var more := heads - {b};
      FewerOk(heads, sizes, b);
      GoneHead(heads, disk, flat, b);
      GonePage(heads, pages, b);
      OneLess(heads, b);
      RemoveFromQueues(b);
      OutChanges(heads, more, queues, b);
      var page := heads[b].page;
      pages := pages[page := Without(pages[page], b)];
      heads := heads - {b};
      nrBuffers := nrBuffers - 1;
      Whole();
    }

    method DropPage(page: nat)
      requires Valid() && page in pages && pages[page] == []
      modifies this`pages, this`buffermem
      ensures Valid() && pages == old(pages) - {page} && buffermem == old(buffermem) - PAGE_SIZE
    {
      hide *;
      Parts();
      NoneOnPage(heads, pages, page);
      pages := pages - {page};
      buffermem := buffermem - PAGE_SIZE;
      Whole();
    }

    /** Tries pages one after another; which buffers are tried is left open, but those of one size
        may be spared. */
    method Shrink(tries: seq<nat>, spare: nat) returns (ok: bool)
      requires Valid()
      modifies this`heads, this`queues, this`pages, this`nrBuffers, this`buffermem
      ensures Valid() && Kept(old(heads), heads)
      ensures forall c | c in heads :: c in old(heads) && heads[c] == old(heads)[c]
      ensures if ok then exists c :: c in old(heads) && c !in heads else heads == old(heads) && queues == old(queues)
      ensures buffermem == old(buffermem) - if ok then PAGE_SIZE else 0
      ensures !ok ==> forall i | 0 <= i < |tries| :: PageInUse(heads, tries[i], spare)
      ensures spare < NR_SIZES ==> Spared(old(heads), old(queues), heads, queues, spare)
    {
      hide *;
      KeptSelf(heads);
      ValidLinked();
      if spare < NR_SIZES {
        SparedSelf(heads, queues, spare);
      }
      for i := 0 to |tries|
        invariant Valid() && heads == old(heads) && queues == old(queues) && buffermem == old(buffermem)
        invariant forall j | 0 <= j < i :: PageInUse(heads, tries[j], spare)
      {
        if tries[i] in heads && heads[tries[i]].size != spare {
          ok := TryToFree(tries[i]);
          if ok {
            return;
          }
        }
        PageInUseIs(heads, tries[i], spare);
      }
      ok := false;
    }

    /** Finds memory for buffers of one size: new pages while there is room, then pages of buffers of
        other sizes that nobody uses, then buffers of the lists. Nothing in use is touched. Afterwards
        a buffer of the size is free if one was, or if any list had one that could be taken. */
    method RefillFreelist(size: nat, nrefill: nat, now: nat, tries: seq<seq<nat>>)
      requires Valid() && size < NR_SIZES
      modifies this`heads, this`queues, this`pages, this`nrBuffers, this`buffermem, this`nextHead, this`nextPage
      ensures Valid() && Kept(old(heads), heads) && Unhashed(old(heads), heads)
      ensures nrefill > 0 && InReach(old(heads), old(queues), size) ==> size < |queues.free| && queues.free[size] != []
      ensures buffermem < old(buffermem) + nrefill * Bytes(size) + PAGE_SIZE
      ensures size < |old(queues).nrFree| && old(queues).nrFree[size] > 100 ==> heads == old(heads) && queues == old(queues)
    {
      hide *;
      KeptSelf(heads);
      UnhashedSelf(heads);
      ValidLinked();
      BytesPositive(size);
      if queues.nrFree[size] > 100 {
        FreeCounted(heads, queues, size);
        return;
      }
      var needed: int := nrefill * Bytes(size);
      var more := true;
      ghost var some := InReach(heads, queues, size);
      while buffermem < cacheSize && needed > 0 && more
        invariant Valid() && Kept(old(heads), heads) && Unhashed(old(heads), heads)
        invariant |queues.free| == NR_SIZES
        invariant nrefill > 0 && some ==> InReach(heads, queues, size) && (needed > 0 || queues.free[size] != [])
        invariant buffermem + needed <= old(buffermem) + nrefill * Bytes(size) && needed + PAGE_SIZE > 0
        decreases needed, more
      {
        more := GrowOnce(size, old(heads));
        if more {
          needed := needed - PAGE_SIZE;
        }
      }
      if needed <= 0 {
        return;
      }
      for t := 0 to |tries|
        invariant Valid() && Kept(old(heads), heads) && Unhashed(old(heads), heads)
        invariant buffermem + needed <= old(buffermem) + nrefill * Bytes(size)
        invariant |queues.free| == NR_SIZES && needed > 0 && (nrefill > 0 && some ==> InReach(heads, queues, size))
      {
        var shrunk := ShrinkOthers(size, tries[t], old(heads));
        if !shrunk {
          break;
        }
        var grown := GrowOnce(size, old(heads));
        if !grown {
          break;
        }
        needed := needed - PAGE_SIZE;
        if needed <= 0 {
          return;
        }
      }
      while needed > 0
        invariant Valid() && Kept(old(heads), heads) && Unhashed(old(heads), heads)
        invariant |queues.free| == NR_SIZES
        invariant nrefill > 0 && some ==> InReach(heads, queues, size) && (needed > 0 || queues.free[size] != [])
        invariant buffermem + needed <= old(buffermem) + nrefill * Bytes(size) && needed + PAGE_SIZE > 0
      {
        needed := Elect(size, needed, now, old(heads));
        if needed <= 0 {
          return;
        }
        var grown := false;
        if buffermem < cacheSize {
          grown := GrowOnce(size, old(heads));
        }
        if !grown {
          var again := GrowOnce(size, old(heads));
        }
        needed := needed - PAGE_SIZE;
      }
    }

    /** One election: the candidates of all lists, and the winners among them one after another. */
    method Elect(size: nat, wanted: int, now: nat, ghost first: Heads) returns (needed: int)
      requires Valid() && size < NR_SIZES && Kept(first, heads) && Unhashed(first, heads)
      modifies this`heads, this`queues
      ensures Valid() && Kept(first, heads) && Unhashed(first, heads) && needed <= wanted && |queues.free| == NR_SIZES
      ensures wanted > 0 ==> needed + PAGE_SIZE > 0
      ensures wanted > 0 && InReach(old(heads), old(queues), size) ==> size < |queues.free| && queues.free[size] != [] && InReach(heads, queues, size)
      ensures exists taken: seq<nat> ::
                && |old(queues).lru| == NR_LIST && Elections(old(heads), old(queues).lru, size, taken)
                && size < |old(queues).free| && queues.free == old(queues).free[size := old(queues).free[size] + taken]
                && needed == wanted - Worth(taken, size) && (taken != [] ==> needed + Bytes(size) > 0)
                && (needed > 0 ==> NoneLeft(old(heads), old(queues).lru, size, taken))
    {
      hide *;
      ghost var was, lists, free := heads, queues.lru, queues.free;
      ValidLinked();
      BytesPositive(size);
      var cands, lefts := Candidates(size, now);
      KeptRefiled(first, was, heads);
      UnhashedRefiled(first, was, heads);
      ghost var mid := heads;
      ghost var taken;
      needed, taken := TakeWinners(size, wanted, cands, lefts, now, was, lists);
      KeptTrans(first, mid, heads);
      UnhashedTrans(first, mid, heads);
      InReachIs(was, old(queues), size);
      WorthMore([], 0, size);
      Reached(was, lists, free, size, wanted, taken, needed);
      if queues.free[size] != [] {
        InReachIs(heads, queues, size);
      }
    }

    /** Frees a page of another size. */
    method ShrinkOthers(size: nat, tries: seq<nat>, ghost first: Heads) returns (ok: bool)
      requires Valid() && size < NR_SIZES && Kept(first, heads) && Unhashed(first, heads)
      modifies this`heads, this`queues, this`pages, this`nrBuffers, this`buffermem
      ensures Valid() && Kept(first, heads) && Unhashed(first, heads) && |queues.free| == NR_SIZES && buffermem <= old(buffermem)
      ensures (InReach(old(heads), old(queues), size) ==> InReach(heads, queues, size))
    {
      hide *;
      ghost var was, q := heads, queues;
      ok := Shrink(tries, size);
      ValidLinked();
      KeptTrans(first, was, heads);
      UnhashedLess(first, was, heads);
      if InReach(was, q, size) {
        SparedInReach(was, q, heads, queues, size);
      }
    }

    /** A page more; one that failed changes nothing. */
    method GrowOnce(size: nat, ghost first: Heads) returns (ok: bool)
      requires Valid() && size < NR_SIZES && Kept(first, heads) && Unhashed(first, heads)
      modifies this`heads, this`queues, this`pages, this`nrBuffers, this`buffermem, this`nextHead, this`nextPage
      ensures Valid() && Kept(first, heads) && Unhashed(first, heads) && |queues.free| == NR_SIZES
      ensures buffermem == old(buffermem) + if ok then PAGE_SIZE else 0
      ensures ok ==> size < |queues.free| && queues.free[size] != [] && InReach(heads, queues, size)
      ensures !ok ==> heads == old(heads) && queues == old(queues)
    {
      hide *;
      ghost var was := heads;
      ValidLinked();
      ok := GrowBuffers(size);
      KeptTrans(first, was, heads);
      UnhashedMore(first, was, heads);
      if ok {
        Filled(size, |old(queues).free[size]|, |queues.free[size]|);
        InReachIs(heads, queues, size);
      }
    }

    /** The buffer of a block, held: one that is there already, or a recycled one that is not up to
        date yet. It gives up when patience ends before a buffer can be freed. */
    method Getblk(dev: nat, block: nat, size: nat, now: nat, patience: seq<seq<seq<nat>>>) returns (ok: bool, b: nat)
      requires Valid() && dev in sizes && size == sizes[dev]
      modifies this`heads, this`queues, this`pages, this`nrBuffers, this`buffermem, this`nextHead, this`nextPage, this`disk
      ensures Valid() && KeptBut(old(heads), heads, b)
      ensures ok ==> Holding(heads, flat, b, dev, block)
      ensures ok && b in old(heads) && InUse(old(heads)[b]) ==> HeldOnce(old(heads)[b], heads[b])
      ensures ok && !Missing(old(heads), dev, block) ==> UsedLast(heads, old(queues), queues, b)
      ensures !ok ==> Kept(old(heads), heads) && NoBuffer(sizes, patience != [], old(heads), old(queues), dev, block, queues)
    {
      hide *;
      DevSize(dev);
      var found;
      found, b := GetHashTable(dev, block, size);
      if found {
        HeldAgain(old(heads), heads, b);
        Held(heads, flat, b, dev, block);
        ValidLinked();
        HashedIn(heads, b);
        LinkedList(heads, queues, b);
        if heads[b].uptodate && !heads[b].dirt {
          PutLastLru(b);
        }
        UsedLastIs(heads, old(queues), queues, b);
        return true, b;
      }
      MissingIs(old(heads), dev, block);
      assert Missing(old(heads), dev, block);
      KeptSelf(heads);
      UnhashedSelf(heads);
      ValidLinked();
      var rounds := 0;
      while queues.free[size] == []
        invariant Valid() && Kept(old(heads), heads) && Unhashed(old(heads), heads)
        invariant rounds <= |patience| && |queues.free| == NR_SIZES
        invariant rounds == 0 ==> heads == old(heads) && queues == old(queues)
        invariant rounds > 0 && InReach(old(heads), old(queues), size) ==> queues.free[size] != []
        decreases |patience| - rounds
      {
        if rounds == |patience| {
          KeptSome(old(heads), heads, 0);
          NoBufferIs(sizes, patience != [], old(heads), old(queues), dev, block, queues);
          return false, 0;
        }
        ghost var was := heads;
        RefillFreelist(size, 64, now, patience[rounds]);
        KeptTrans(old(heads), was, heads);
        UnhashedTrans(old(heads), was, heads);
        ValidLinked();
        rounds := rounds + 1;
      }
      ValidLinked();
      StillAbsent(old(heads), heads, dev, block);
      b := queues.free[size][0];
      OnFreeList(heads, queues, size);
      ghost var was := heads;
      FreeAtRest(b);
      TakeFree(b, dev, block);
      KeptTaken(old(heads), was, heads, b);
      ok := true;
    }

    /** A free head becomes the buffer of a block no other head has. */
    method TakeFree(b: nat, dev: nat, block: nat)
      requires Valid() && b in heads && heads[b].dev == NODEV && dev in sizes && heads[b].size == sizes[dev]
      requires forall c | c in heads && heads[c].dev == dev :: heads[c].block != block
      modifies this`heads, this`queues
      ensures Valid() && b in heads && Holding(heads, flat, b, dev, block) && heads[b].count == 1
      ensures heads == old(heads)[b := heads[b]]
    {
      hide *;
      Parts();
      RemoveFromQueues(b);
      var h := heads[b].(count := 1, dirt := false, io := Idle, uptodate := false, dev := dev, block := block);
      ghost var more := heads[b := h];
      LinkedSizes(heads, queues, b);
      TakenOk(heads, more, disk, flat, sizes, pages, b, h);
      OutChanges(heads, more, queues, b);
      heads := heads[b := h];
      InsertIntoQueues(b);
      Whole();
    }

    /** Reads a block through the cache: the buffer shows what the flat array has. */
    method Bread(dev: nat, block: nat, size: nat, now: nat, patience: seq<seq<seq<nat>>>) returns (ok: bool, b: nat)
      requires Valid() && dev in sizes && size == sizes[dev]
      modifies this`heads, this`queues, this`pages, this`nrBuffers, this`buffermem, this`nextHead, this`nextPage, this`disk
      ensures Valid() && KeptBut(old(heads), heads, b)
      ensures ok ==> Holding(heads, flat, b, dev, block) && heads[b].uptodate && heads[b].data == At(flat, dev, block)
      ensures ok && b in old(heads) && InUse(old(heads)[b]) ==> HeldOnce(old(heads)[b], heads[b])
      ensures !ok ==> Kept(old(heads), heads) && NoBuffer(sizes, patience != [], old(heads), old(queues), dev, block, queues)
    {
      hide *;
      ok, b := Getblk(dev, block, size, now, patience);
      if !ok {
        return;
      }
      Held(heads, flat, b, dev, block);
      if heads[b].uptodate {
        return;
      }
      ghost var was := heads;
      NotDirty(b);
      StartIo(b, false, now, false);
      WaitOnBuffer(b);
      assert heads == was[b := heads[b]];
      KeptButOne(old(heads), was, heads, b);
      Ready(heads, flat, b, dev, block);
      if b in old(heads) && InUse(old(heads)[b]) {
        HeldThrough(old(heads)[b], was[b], heads[b]);
      }
    }

    /** One step of a user, of the flush daemon, of the device or of the memory manager. Whatever
        the cache does meanwhile, a read returns what was last written, and only writing changes
        the flat array. */
    method Serve(step: Step, now: nat, patience: seq<seq<seq<nat>>>) returns (ok: bool, data: Data)
      requires Valid()
      modifies this
      ensures Valid() && Gripped(old(heads), heads)
      ensures flat == if step.Put? && ok then old(flat)[(step.dev, step.block) := step.contents] else old(flat)
      ensures step.Get? && ok ==> data == At(old(flat), step.dev, step.block)
      ensures Stirs(step, old(heads), old(disk), ok, heads, disk)
      ensures (step.Put? || step.Get?) && !ok ==> NoBuffer(sizes, patience != [], old(heads), old(queues), step.dev, step.block, queues)
    {
      hide *;
      ok, data := false, [];
      GripsSelf(heads);
      if (step.Put? || step.Get?) && step.dev !in sizes {
        NoDevice(sizes, patience != [], heads, queues, step.dev, step.block, queues);
      }
      match step {
        case Put(dev, block, contents) =>
          if dev in sizes {
            var b;
            ok, b := Getblk(dev, block, sizes[dev], now, patience);
            if ok {
              Held(heads, flat, b, dev, block);
              ghost var mid := heads;
              Store(b, contents, now);
              AliveIs(heads[b]);
              Brelse(b, now, false);
              AliveIs(heads[b]);
              assert heads == mid[b := heads[b]];
              ButOneGrips(old(heads), mid, heads, b);
            } else {
              KeptGrips(old(heads), heads);
            }
          }
          UserStirs(step, old(heads), old(disk), ok, heads, disk);
        case Get(dev, block) =>
          if dev in sizes {
            var b;
            ok, b := Bread(dev, block, sizes[dev], now, patience);
            if ok {
              Held(heads, flat, b, dev, block);
              data := heads[b].data;
              ghost var mid := heads;
              AliveIs(heads[b]);
              Brelse(b, now, false);
              AliveIs(heads[b]);
              ButOneGrips(old(heads), mid, heads, b);
            } else {
              KeptGrips(old(heads), heads);
            }
          }
          UserStirs(step, old(heads), old(disk), ok, heads, disk);
        case Flush(b, super) =>
          WritableMeans(heads, b);
          if b in heads && heads[b].dev != NODEV && heads[b].dirt {
            WritableIs(b);
            StartIo(b, true, now, super);
            assert heads == old(heads)[b := heads[b]];
            StillAlive(old(heads)[b], heads[b]);
            OneGrips(old(heads), heads, b);
          }
          FlushStirs(b, super, old(heads), old(disk), ok, heads);
        case Complete(b) =>
          WritableMeans(heads, b);
          if b in heads && heads[b].dev != NODEV && heads[b].io != Idle {
            InTransferIs(heads, b);
            EndIo(b);
            assert heads == old(heads)[b := heads[b]];
            StillAlive(old(heads)[b], heads[b]);
            OneGrips(old(heads), heads, b);
          }
          CompleteStirs(b, old(heads), old(disk), ok, heads, disk);
        case Reclaim(tries) =>
          ok := Shrink(tries, NR_SIZES);
          ReclaimStirs(tries, old(heads), old(disk), ok, heads);
          KeptGrips(old(heads), heads);
      }
    }

    /** One step of a user who keeps buffers, or of anyone else meanwhile. However long a buffer is
        kept and whatever the cache reclaims, what a look at it shows is the block it was taken
        for, as last written, by whatever handle. */
    method Use(u: Use, held: seq<Handle>, now: nat, patience: seq<seq<seq<nat>>>)
      returns (ok: bool, data: Data, rest: seq<Handle>)
      requires Valid() && Grasped(heads, held)
      modifies this
      ensures Valid() && Grasped(heads, rest)
      ensures Follows(sizes, patience != [], u, Moment(held, old(flat), old(disk), old(heads), old(queues)), Report(ok, data),
                      Moment(rest, flat, disk, heads, queues))
    {
      hide Cache.Valid, Grasped, Gripped, Kept, KeptBut, Holding, HeldOnce, InUse, Alive, Times, Hashed, At, WithoutHandle, NoBuffer;
      ok, data, rest := false, [], held;
      match u {
        case Take(dev, block) =>
          if dev in sizes {
            var b;
            ok, b := Bread(dev, block, sizes[dev], now, patience);
            if ok {
              Held(heads, flat, b, dev, block);
              rest := held + [Handle(b, dev, block)];
              GraspTaken(old(heads), heads, held, Handle(b, dev, block));
            } else {
              KeptGrips(old(heads), heads);
              GraspKept(old(heads), heads, held);
            }
          } else {
            NoDevice(sizes, patience != [], heads, queues, dev, block, queues);
          }
        case Look(i) =>
          if i < |held| {
            data := LookAt(held, i);
            ok := true;
          }
        case Change(i, contents) =>
          if i < |held| {
            data := LookAt(held, i);
            ghost var was := heads;
            GraspOf(heads, held, i);
            Store(held[i].b, contents, now);
            AliveIs(heads[held[i].b]);
            GraspSame(was, heads, held, held[i].b);
            ok := true;
          }
        case Release(i) =>
          if i < |held| {
            GraspOf(heads, held, i);
            Brelse(held[i].b, now, false);
            AliveIs(heads[held[i].b]);
            GraspReleased(old(heads), heads, held, i);
            WithoutHandleIs(held, i);
            rest := held[..i] + held[i + 1..];
            ok := true;
          }
        case Forget(i) =>
          if i < |held| {
            GraspOf(heads, held, i);
            AliveIs(heads[held[i].b]);
            ok := Bforget(held[i].b, now);
            if ok {
              GraspForgotten(old(heads), heads, held, i);
              WithoutHandleIs(held, i);
              rest := held[..i] + held[i + 1..];
            } else {
              GraspSame(old(heads), heads, held, held[i].b);
            }
          }
        case Meanwhile(step) =>
          ok, data := Serve(step, now, patience);
          GraspKept(old(heads), heads, held);
      }
    }

    /** Waits for a held buffer and reads it. */
    method LookAt(held: seq<Handle>, i: nat) returns (data: Data)
      requires Valid() && Grasped(heads, held) && i < |held|
      modifies this`heads, this`disk
      ensures Valid() && Grasped(heads, held) && data == At(flat, held[i].dev, held[i].block)
      ensures held[i].b in heads && heads[held[i].b].io == Idle
    {
      hide *;
      var b := held[i].b;
      GraspOf(heads, held, i);
      WaitOnBuffer(b);
      AliveIs(heads[b]);
      GraspSame(old(heads), heads, held, b);
      data := heads[b].data;
    }

    /** Any run of users and others, with what each use reports and what there is between them. */
    method UseAll(uses: seq<Use>, now: nat, patience: seq<seq<seq<nat>>>)
      returns (held: seq<Handle>, reports: seq<Report>, ghost moments: seq<Moment>)
      requires Valid()
      modifies this
      ensures Valid() && Grasped(heads, held) && |reports| == |uses| && |moments| == |uses| + 1
      ensures moments[0] == Moment([], old(flat), old(disk), old(heads), old(queues))
      ensures moments[|uses|] == Moment(held, flat, disk, heads, queues)
      ensures forall n {:trigger uses[n]} | 0 <= n < |uses| :: Follows(sizes, patience != [], uses[n], moments[n], reports[n], moments[n + 1])
    {
      hide *;
      held, reports, moments := [], [], [Moment([], flat, disk, heads, queues)];
      NothingHeld(heads);
      for n := 0 to |uses|
        invariant Valid() && Grasped(heads, held) && |reports| == n && |moments| == n + 1
        invariant moments[0] == Moment([], old(flat), old(disk), old(heads), old(queues))
        invariant moments[n] == Moment(held, flat, disk, heads, queues)
        invariant forall m {:trigger uses[m]} | 0 <= m < n :: Follows(sizes, patience != [], uses[m], moments[m], reports[m], moments[m + 1])
      {
        var ok, data;
        ok, data, held := Use(uses[n], held, now, patience);
        reports, moments := reports + [Report(ok, data)], moments + [Moment(held, flat, disk, heads, queues)];
      }
    }

    method SetTime(b: nat, time: nat)
      requires Valid() && Hashed(heads, b)
      modifies this`heads
      ensures Valid() && heads == old(heads)[b := old(heads)[b].(time := time)]
    {
      hide Linked, Coherent, PagesOk, Unique, HeadsOk;
      ghost var more := heads[b := heads[b].(time := time)];
      MetaChanges(heads, more, disk, flat, sizes, pages);
      SamePlaces(heads, more, queues);
      heads := heads[b := heads[b].(time := time)];
    }

    method Relist(b: nat, dispose: nat, time: nat)
      requires Valid() && Hashed(heads, b) && dispose < NR_LIST
      modifies this`heads, this`queues
      ensures Valid() && b in heads
      ensures heads == old(heads)[b := old(heads)[b].(list := dispose, time := time)]
      ensures queues.free == old(queues).free
      ensures |queues.lru| == |old(queues).lru| == NR_LIST && old(heads)[b].list < NR_LIST
      ensures forall i | 0 <= i < NR_LIST && i != old(heads)[b].list && i != dispose :: queues.lru[i] == old(queues).lru[i]
      ensures dispose != old(heads)[b].list ==>
                queues.lru[old(heads)[b].list] == Without(old(queues).lru[old(heads)[b].list], b)
      ensures queues.lru == MovedTo(old(queues).lru, b, old(heads)[b].list, dispose)
    {
      hide Coherent, PagesOk, Unique, HeadsOk, Without, Linked, Detached, Attached;
      ghost var more := heads[b := heads[b].(list := dispose, time := time)];
      LinkedList(heads, queues, b);
      MetaChanges(heads, more, disk, flat, sizes, pages);
      Relisted(heads, more, queues, b);
      RemoveFromQueues(b);
      OutChanges(heads, more, queues, b);
      heads := heads[b := heads[b].(list := dispose, time := time)];
      InsertIntoQueues(b);
    }
  }

  /** Moving a hashed head from one list to another leaves the rest of the lists alone. */
  lemma Relisted(heads: Heads, more: Heads, q: Queues, b: nat)
    requires Linked(heads, q, {}) && Hashed(heads, b) && b in more
    requires more == heads[b := heads[b].(list := more[b].list, time := more[b].time)] && more[b].list < NR_LIST
    ensures Linked(heads, Detached(heads, q, b), {b}) && Linked(more, Detached(heads, q, b), {b})
    ensures var r := Attached(more, Detached(heads, q, b), b);
            && r.free == q.free && |r.lru| == NR_LIST
            && (forall i | 0 <= i < NR_LIST && i != heads[b].list && i != more[b].list :: r.lru[i] == q.lru[i])
            && (more[b].list != heads[b].list ==> r.lru[heads[b].list] == Without(q.lru[heads[b].list], b))
            && heads[b].list < |q.lru| == NR_LIST && r.lru == MovedTo(q.lru, b, heads[b].list, more[b].list)
  {
    hide Placed, CountSize, Queue, Without;
    DetachedLinked(heads, q, b);
    OutChanges(heads, more, Detached(heads, q, b), b);
  }

  lemma LinkedList(heads: Heads, q: Queues, b: nat)
    requires Linked(heads, q, {}) && b in heads
    ensures heads[b].list < NR_LIST && heads[b].size < NR_SIZES
    ensures |q.lru| == NR_LIST && |q.free| == NR_SIZES
  {
    hide Placed, CountSize;
  }
}
