/** The directories and the name cache together: the operations on records of Directory, each with
    what it enters in the cache, in any order. */
module CachedDirs {
  import Dcache
  import Directory
  import Records

  type Place = (nat, nat)

  datatype Act =
    | Load(d: Place, blocks: seq<Records.Block>)
    | Look(d: Place, name: string)
    | ListOne(d: Place, k: nat, i: nat)
    | Add(d: Place, name: string, ino: nat, room: bool, search: bool)
    | Drop(d: Place, name: string)
    | Replace(d: Place, name: string, ino: nat)
    | Reparent(d: Place, parent: nat)

  datatype Reply = Reply(ok: bool, ino: nat)

  /** The directories in core, the last stamp given out, and the cache. */
  datatype World = World(dirs: Dcache.Dirs, event: nat, view: Dcache.Levels)

  /** Everything there is in core: device geometry and case mode are the same throughout. */
  datatype Device = Device(blockSize: nat, inodes: nat, caseless: bool)

  ghost predicate Formed(v: Device, dirs: Dcache.Dirs) {
    && v.blockSize >= Records.RecLen(Records.NAME_LEN) && v.blockSize % 4 == 0
    && forall d | d in dirs :: Directory.AllTile(dirs[d].blocks, v.blockSize, v.inodes)
  }

  function KeyIn(w: World, d: Place, name: string): Dcache.Key
    requires d in w.dirs
  {
    Dcache.Key(d.0, d.1, w.dirs[d].version, name)
  }

  ghost function Found(v: Device, w: World, d: Place, name: string): nat
    requires d in w.dirs
  {
    Directory.Answer(w.dirs[d].blocks, name, v.caseless)
  }

  predicate Lists(w: World, d: Place, k: nat, i: nat) {
    d in w.dirs && Directory.At(w.dirs[d].blocks, k, i) && w.dirs[d].blocks[k][i].ino != 0
  }

  predicate Moves(v: Device, w: World, d: Place, parent: nat) {
    d in w.dirs && Directory.StartsWithDots(w.dirs[d].blocks, d.1) && d.1 > 0 && 0 < parent <= v.inodes
  }

  predicate Numbers(v: Device, w: World, d: Place, ino: nat) {
    d in w.dirs && 0 < ino <= v.inodes
  }

  /** The directory has other records under a new stamp. */
  ghost predicate Changed(w: World, d: Place, stamps: nat, u: World)
    requires d in w.dirs
  {
    d in u.dirs && u.event == w.event + stamps && u.dirs == w.dirs[d := Dcache.Dir(u.event, u.dirs[d].blocks)]
  }

  /** The act leads from w to u. */
  ghost predicate Leads(v: Device, w: World, act: Act, r: Reply, u: World) {
    match act
    case Load(d, blocks) => r.ok && u == World(w.dirs[d := Dcache.Dir(w.event + 1, blocks)], w.event + 1, w.view)
    case Look(d, name) =>
      && (r.ok <==> d in w.dirs)
      && if r.ok then
           && u == w.(view := Dcache.Consulted(w.view, KeyIn(w, d, name), Found(v, w, d, name)))
           && r.ino == match Dcache.Cached(w.view, KeyIn(w, d, name)) case Some(n) => n case None => Found(v, w, d, name)
         else u == w
    case ListOne(d, k, i) =>
      && (r.ok <==> Lists(w, d, k, i))
      && u == if r.ok then
                var x := w.dirs[d].blocks[k][i];
                w.(view := Dcache.Entered(w.view, KeyIn(w, d, x.name), x.ino))
              else w
    case Add(d, name, ino, room, search) =>
      && (r.ok <==> Numbers(v, w, d, ino) && Directory.Addable(w.dirs[d].blocks, name, v.caseless, room, search))
      && if r.ok then
           && Changed(w, d, 2, u) && Directory.NameAdded(w.dirs[d].blocks, name, ino, v.caseless, u.dirs[d].blocks)
           && u.view == Dcache.Entered(w.view, KeyIn(u, d, Directory.Cut(name)), ino)
         else u == w
    case Drop(d, name) =>
      && (r.ok <==> d in w.dirs && Found(v, w, d, name) != 0)
      && if r.ok then
           && Changed(w, d, 1, u) && u.view == w.view
           && Directory.NameRemoved(w.dirs[d].blocks, name, v.caseless, u.dirs[d].blocks)
         else u == w
    case Replace(d, name, ino) =>
      && (r.ok <==> Numbers(v, w, d, ino) && Found(v, w, d, name) != 0)
      && if r.ok then
           && Changed(w, d, 1, u)
           && exists spelled ::
                && Directory.Renumbered(w.dirs[d].blocks, Directory.Cut(name), v.caseless, spelled, ino, u.dirs[d].blocks)
                && u.view == Dcache.Entered(w.view, KeyIn(u, d, spelled), ino)
         else u == w
    case Reparent(d, parent) =>
      && (r.ok <==> Moves(v, w, d, parent))
      && u == if r.ok then
                World(w.dirs[d := Dcache.Dir(w.dirs[d].version, Directory.Reparented(w.dirs[d].blocks, parent))], w.event,
                      Dcache.Entered(w.view, KeyIn(w, d, ".."), parent))
              else w
  }

  /** A lookup answers what a search of the records answers. */
  ghost predicate Truthful(v: Device, w: World, act: Act, r: Reply) {
    act.Look? && r.ok ==> act.d in w.dirs && r.ino == Found(v, w, act.d, act.name)
  }

  /** The cache does not contradict the records. */
  ghost predicate Agrees(v: Device, w: World) {
    Dcache.Coherent(w.view, w.dirs, v.caseless)
  }

  /** What sets the cache at odds with the records: another parent for a directory with copies of ".."
      on both levels, or the listing of a record that a search does not find because an earlier one
      has the same name. */
  ghost predicate Misleads(v: Device, w: World, act: Act) {
    match act
    case Reparent(d, parent) =>
      && Moves(v, w, d, parent) && parent != Found(v, w, d, "..")
      && Dcache.On(w.view.one, KeyIn(w, d, "..")) && Dcache.On(w.view.two, KeyIn(w, d, ".."))
    case ListOne(d, k, i) =>
      && Lists(w, d, k, i)
      && var x := w.dirs[d].blocks[k][i]; |x.name| <= Dcache.NAME_MAX && Found(v, w, d, x.name) != x.ino
    case _ => false
  }

  /** As long as no two live records of a directory have the same name, listing misleads nobody. */
  lemma UniqueListing(v: Device, w: World, d: Place, k: nat, i: nat)
    requires Formed(v, w.dirs) && Lists(w, d, k, i) && Directory.Unique(Records.Live(w.dirs[d].blocks), v.caseless)
    requires w.dirs[d].blocks[k][i].name != ""
    ensures !Misleads(v, w, ListOne(d, k, i))
  {
    hide Records.Live, Directory.AllTile, Directory.Answer, Directory.Fold;
    var blocks: seq<Records.Block> := w.dirs[d].blocks;
    var x: Records.Rec := blocks[k][i];
    if |x.name| <= Dcache.NAME_MAX {
      Directory.RecordIsLive(blocks, v.blockSize, v.inodes, k, i);
      Directory.AnswerIs(blocks, x.name, v.caseless, Records.Entry(Directory.Pos(blocks, v.blockSize, k, i), x.name, x.ino));
      AnswerMeans(blocks, x.name, v.caseless);
    }
  }

  lemma AnswerMeans(blocks: seq<Records.Block>, name: string, caseless: bool)
    requires |name| <= Dcache.NAME_MAX
    ensures Directory.Answer(blocks, name, caseless) == Directory.FirstMatch(Records.Flat(blocks), name, caseless)
  {
  }

  class Core {
    const lookups: Dcache.Lookups
    const device: Device

    ghost predicate Valid()
      reads this, lookups, lookups.cache
    {
      lookups.Valid() && lookups.caseless == device.caseless && Formed(device, lookups.dirs)
    }

    ghost function Now(): World
      requires lookups.Valid()
      reads this, lookups, lookups.cache
    {
      World(lookups.dirs, lookups.event, lookups.cache.View())
    }

    constructor (device: Device)
      requires device.blockSize >= Records.RecLen(Records.NAME_LEN) && device.blockSize % 4 == 0
      ensures Valid() && fresh(lookups) && fresh(lookups.cache) && this.device == device && lookups.dirs == map[] && Agrees(device, Now())
    {
      this.device := device;
      lookups := new Dcache.Lookups(device.caseless);
    }

    /** The records of a directory, to be changed. */
    method Open(d: Place) returns (dir: Directory.Directory)
      requires Valid() && d in lookups.dirs
      ensures fresh(dir) && dir.Valid() && dir.blocks == lookups.dirs[d].blocks && dir.event == lookups.event
      ensures dir.blockSize == device.blockSize && dir.inodes == device.inodes && dir.caseless == device.caseless
    {
      dir := new Directory.Directory(lookups.dirs[d].blocks, lookups.dirs[d].version, lookups.event,
                                     device.blockSize, device.inodes, device.caseless);
    }

    lemma NowAgrees()
      requires Valid()
      ensures lookups.InStep() <==> Agrees(device, Now())
    {
    }

    /** A new name, with a search first as link, mkdir and rename do, or without one as create does. One
        stamp is that of the new record, the other that of its binding. */
    method AddName(d: Place, name: string, ino: nat, room: bool, search: bool) returns (ok: bool)
      requires Valid() && Numbers(device, Now(), d, ino)
      modifies lookups, lookups.cache
      ensures Valid() && Leads(device, old(Now()), Add(d, name, ino, room, search), Reply(ok, 0), Now())
      ensures old(Agrees(device, Now())) ==> Agrees(device, Now())
    {
      hide Directory.Answer, Directory.AllTile, Records.Live, Dcache.Entered, Agrees, Dcache.Lookups.InStep, Directory.Bound,
           Dcache.NameCache.Valid, Dcache.Past, Directory.Cut, Directory.Unique, Directory.MatchFirst, Directory.NameAdded,
           Directory.Addable;
      NowAgrees();
      var dir := Open(d);
      var s;
      if search {
        s := dir.Insert(name, ino, room);
      } else {
        s := dir.Create(name, ino, room);
      }
      ok := s == Directory.Added;
      if ok {
        CutAgain(dir.blocks, name, device.caseless);
        TilesOf(dir);
        lookups.Load(d, dir.blocks);
        lookups.Bind(d, dir.blocks, Directory.Cut(name), ino);
      }
      NowAgrees();
    }

    /** unlink, rmdir and the old name of a rename. */
    method DropName(d: Place, name: string) returns (ok: bool)
      requires Valid() && d in lookups.dirs
      modifies lookups
      ensures Valid() && Leads(device, old(Now()), Drop(d, name), Reply(ok, 0), Now())
      ensures old(Agrees(device, Now())) ==> Agrees(device, Now())
    {
      hide Directory.Answer, Directory.AllTile, Records.Live, Dcache.Entered, Agrees, Dcache.Lookups.InStep, Directory.Bound,
           Dcache.NameCache.Valid, Dcache.Past, Directory.Cut, Directory.Unique, Directory.Fold, Directory.Names,
           Directory.NameRemoved;
      NowAgrees();
      var dir := Open(d);
      var s, e := dir.Remove(name);
      ok := s == Directory.Added;
      if ok {
        TilesOf(dir);
        lookups.Unbind(d, dir.blocks);
      }
      NowAgrees();
    }

    /** A rename over a name. */
    method ReplaceName(d: Place, name: string, ino: nat) returns (ok: bool)
      requires Valid() && Numbers(device, Now(), d, ino)
      modifies lookups, lookups.cache
      ensures Valid() && Leads(device, old(Now()), Act.Replace(d, name, ino), Reply(ok, 0), Now())
      ensures old(Agrees(device, Now())) ==> Agrees(device, Now())
    {
      hide Directory.Answer, Directory.AllTile, Records.Live, Dcache.Entered, Agrees, Dcache.Lookups.InStep,
           Dcache.NameCache.Valid, Dcache.Past, Directory.Cut, Directory.Renumbered;
      NowAgrees();
      var dir := Open(d);
      var s, spelled := dir.Replace(name, ino);
      ok := s == Directory.Added;
      if ok {
        TilesOf(dir);
        lookups.Bind(d, dir.blocks, spelled, ino);
      }
      NowAgrees();
    }

    /** The end of a rename of a directory. */
    method MoveTo(d: Place, parent: nat)
      requires Valid() && Moves(device, Now(), d, parent)
      modifies lookups, lookups.cache
      ensures Valid() && Leads(device, old(Now()), Act.Reparent(d, parent), Reply(true, 0), Now())
      ensures old(Agrees(device, Now())) ==> (Agrees(device, Now()) <==> !old(Misleads(device, Now(), Act.Reparent(d, parent))))
    {
      hide Directory.Answer, Directory.AllTile, Records.Live, Dcache.Entered, Agrees, Dcache.Lookups.InStep,
           Dcache.NameCache.Valid, Dcache.Past, Dcache.On, Directory.Reparented, Directory.StartsWithDots;
      NowAgrees();
      var dir := Open(d);
      dir.Reparent(d.1, parent);
      TilesOf(dir);
      lookups.Reparent(d, parent);
      NowAgrees();
    }

    /** One act. The cache agrees with the records afterwards exactly if the act does not mislead; and
        as long as it agrees every lookup answers what a search of the records answers. */
    method Serve(act: Act) returns (r: Reply)
      requires Valid() && (act.Load? ==> Directory.AllTile(act.blocks, device.blockSize, device.inodes))
      modifies lookups, lookups.cache
      ensures Valid() && Leads(device, old(Now()), act, r, Now())
      ensures old(Agrees(device, Now())) ==>
                && (Agrees(device, Now()) <==> !old(Misleads(device, Now(), act)))
                && Truthful(device, old(Now()), act, r)
    {
      hide Directory.Answer, Directory.AllTile, Records.Live, Dcache.Entered, Dcache.Consulted, Agrees, Dcache.Lookups.InStep,
           Dcache.NameCache.Valid, Dcache.Past, Dcache.On, Dcache.Cached, Directory.Reparented, Directory.StartsWithDots,
           Directory.Cut, Directory.Renumbered, Directory.NameAdded, Directory.NameRemoved, Directory.Addable;
      NowAgrees();
      r := Reply(false, 0);
      match act {
        case Load(d, blocks) =>
          lookups.Load(d, blocks);
          r := Reply(true, 0);
        case Look(d, name) =>
          if d in lookups.dirs {
            var ino := lookups.Lookup(d, name);
            r := Reply(true, ino);
          }
        case ListOne(d, k, i) =>
          if d in lookups.dirs && Directory.At(lookups.dirs[d].blocks, k, i) && lookups.dirs[d].blocks[k][i].ino != 0 {
            lookups.List(d, k, i);
            r := Reply(true, 0);
          }
        case Add(d, name, ino, room, search) =>
          if d in lookups.dirs && 0 < ino <= device.inodes {
            var ok := AddName(d, name, ino, room, search);
            r := Reply(ok, 0);
          }
        case Drop(d, name) =>
          if d in lookups.dirs {
            var ok := DropName(d, name);
            r := Reply(ok, 0);
          }
        case Replace(d, name, ino) =>
          if d in lookups.dirs && 0 < ino <= device.inodes {
            var ok := ReplaceName(d, name, ino);
            r := Reply(ok, 0);
          }
        case Reparent(d, parent) =>
          if && d in lookups.dirs && Directory.StartsWithDots(lookups.dirs[d].blocks, d.1) && d.1 > 0
             && 0 < parent <= device.inodes {
            MoveTo(d, parent);
            r := Reply(true, 0);
          }
      }
      NowAgrees();
    }

    /** Any run of acts, with the replies and the states between them. The cache agrees with the records
        exactly up to the first act that misleads, and until then every lookup answers what the records
        say. */
    method Run(acts: seq<Act>) returns (replies: seq<Reply>, ghost worlds: seq<World>)
      requires Valid()
      requires forall n | 0 <= n < |acts| && acts[n].Load? :: Directory.AllTile(acts[n].blocks, device.blockSize, device.inodes)
      modifies lookups, lookups.cache
      ensures Valid() && |replies| == |acts| && |worlds| == |acts| + 1 && worlds[0] == old(Now()) && worlds[|acts|] == Now()
      ensures forall n {:trigger acts[n]} | 0 <= n < |acts| ::
                && Leads(device, worlds[n], acts[n], replies[n], worlds[n + 1])
                && (Agrees(device, worlds[n]) ==>
                      && (Agrees(device, worlds[n + 1]) <==> !Misleads(device, worlds[n], acts[n]))
                      && Truthful(device, worlds[n], acts[n], replies[n]))
      ensures forall n | 0 <= n <= |acts| && Agrees(device, worlds[0]) && NoneMisleads(acts, worlds, n) :: Agrees(device, worlds[n])
    {
      hide Leads, Agrees, Misleads, Truthful, Dcache.Lookups.Valid, Formed, Directory.AllTile, Valid;
      Parts();
      replies, worlds := [], [Now()];
      for n := 0 to |acts|
        invariant Valid() && lookups.Valid() && |replies| == n && |worlds| == n + 1 && worlds[0] == old(Now()) && worlds[n] == Now()
        invariant forall m {:trigger acts[m]} | 0 <= m < n ::
                    && Leads(device, worlds[m], acts[m], replies[m], worlds[m + 1])
                    && (Agrees(device, worlds[m]) ==>
                          && (Agrees(device, worlds[m + 1]) <==> !Misleads(device, worlds[m], acts[m]))
                          && Truthful(device, worlds[m], acts[m], replies[m]))
        invariant forall m | 0 <= m <= n && Agrees(device, worlds[0]) && NoneMisleads(acts, worlds, m) :: Agrees(device, worlds[m])
      {
        var r := Serve(acts[n]);
        Parts();
        assert NoneMisleads(acts, worlds + [Now()], n + 1) ==> NoneMisleads(acts, worlds, n) && !Misleads(device, worlds[n], acts[n]);
        replies, worlds := replies + [r], worlds + [Now()];
      }
    }

    lemma Parts()
      requires Valid()
      ensures lookups.Valid()
    {
    }

    ghost predicate NoneMisleads(acts: seq<Act>, worlds: seq<World>, n: nat)
      requires n <= |acts| && n <= |worlds|
    {
      forall m | 0 <= m < n :: !Misleads(device, worlds[m], acts[m])
    }
  }

  lemma CutAgain(blocks: seq<Records.Block>, name: string, caseless: bool)
    ensures Directory.Answer(blocks, Directory.Cut(name), caseless) == Directory.Answer(blocks, name, caseless)
  {
    hide Directory.FirstMatch;
  }

  lemma TilesOf(dir: Directory.Directory)
    requires dir.Valid()
    ensures Directory.AllTile(dir.blocks, dir.blockSize, dir.inodes)
  {
  }
}
