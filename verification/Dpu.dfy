/**
 The DPU side of the store: buckets in host memory behind 128 cache frames.

 DMA copies take effect when they are issued; DmaSchedule shows that every interleaving of the client
 threads agrees with that, because the log kept here is disciplined. A fetch is registered in the bucket
 table when its future is awaited.
 */
module DpuStore {
  import opened Basics
  import opened RangeSums
  import opened LevelBuckets
  import opened LevelGeometry
  import opened LruReplacer
  import opened FrameLists
  import opened CachedStore
  import opened StoreContents
  import opened LevelPlacement
  import opened DmaSchedule
  import opened Fetching
  import opened RehashSteps

  datatype InsertOutcome = Added | Refused | Stopped(why: ExpandOutcome)

  datatype Request = Search(key: FixedKey) | Insert(e: Entry) | Delete(key: FixedKey) | Update(e: Entry) | Start | End

  datatype Response = Value(value: Option<FixedValue>) | Accepted(ok: bool) | Deleted(found: bool) | Ignored

  /** What a multiset of entries allows a request to answer and to become. */
  ghost predicate Allowed(before: multiset<Entry>, q: Request, a: Response, after: multiset<Entry>) {
    match q
    case Search(k) =>
      && a.Value? && after == before && (a.value.Some? <==> HasKey(before, k))
      && (a.value.Some? ==> Entry(k, a.value.value) in before)
    case Insert(e) =>
      a.Accepted? && (if a.ok then after == before + multiset{e} else after == before && |before| >= 4 * ASSOC_NUM)
    case Delete(k) =>
      && a.Deleted? && (a.found <==> HasKey(before, k)) && (!a.found ==> after == before)
      && (a.found ==> exists gone :: before == after + multiset{gone} && gone.key == k)
    case Update(_) => a.Ignored? && after == before
    case Start => a.Ignored? && after == before
    case End => a.Ignored? && after == before
  }

  /** A history of contents that a sequence of requests and answers allows. */
  ghost predicate Explains(history: seq<multiset<Entry>>, qs: seq<Request>, answers: seq<Response>) {
    && |history| == |answers| + 1 && |answers| <= |qs|
    && forall i :: 0 <= i < |answers| ==> Allowed(history[i], qs[i], answers[i], history[i + 1])
  }

  /** A state of the store in which a request was decided. */
  datatype Moment = Moment(m: Mem, geo: Geometry)

  /** The state held what the history says, and an insert was refused exactly if the entry was stuck there. */
  ghost predicate Decided(t: Moment, h: Hashes, before: multiset<Entry>, q: Request, a: Response) {
    && Settled(t.m, t.geo) && Contents(t.m) == before
    && (q.Insert? ==> (a == Accepted(true) <==> !Stuck(t.m, t.geo, h, q.e.key)))
  }

  /** A delete that leaves fetches behind. */
  ghost predicate Leaves(t: Moment, h: Hashes, q: Request) {
    q.Delete? && LeftBehind(t.m, Candidates(t.geo, h, q.key), q.key) != []
  }

  /** One such state for every answer. */
  ghost predicate Justifies(moments: seq<Moment>, h: Hashes, history: seq<multiset<Entry>>, qs: seq<Request>, answers: seq<Response>) {
    && |moments| == |answers| < |history| && |answers| <= |qs|
    && forall i :: 0 <= i < |answers| ==> Decided(moments[i], h, history[i], qs[i], answers[i])
  }

  ghost predicate SomeLeaves(moments: seq<Moment>, h: Hashes, qs: seq<Request>) {
    exists i :: 0 <= i < |moments| && i < |qs| && Leaves(moments[i], h, qs[i])
  }

  /** How many entries the store counts, and its parameters. */
  datatype Load = Load(size: nat, geo: Geometry)

  /** Four slots in every bucket of both levels; a load of 0.95 or more. */
  ghost predicate Full(l: Load) {
    20 * l.size >= 19 * (4 * (l.geo.bl + l.geo.addr))
  }

  /** One more is counted for an accepted insert; the table grows for an insert that finds it full, and only then. */
  ghost predicate LoadStep(l: Load, q: Request, a: Response, l': Load) {
    && l'.size == (if a == Accepted(true) then l.size + 1 else l.size)
    && l'.geo == (if q.Insert? && Full(l) then Grown(l.geo) else l.geo)
  }

  /** The load before the first request and after each answer. */
  ghost predicate Tracks(loads: seq<Load>, qs: seq<Request>, answers: seq<Response>) {
    && |loads| == |answers| + 1 && |answers| <= |qs|
    && forall i :: 0 <= i < |answers| ==> LoadStep(loads[i], qs[i], answers[i], loads[i + 1])
  }

  lemma TracksMore(loads: seq<Load>, qs: seq<Request>, answers: seq<Response>, a: Response, l: Load)
    requires Tracks(loads, qs, answers) && |answers| < |qs| && LoadStep(loads[|answers|], qs[|answers|], a, l)
    ensures Tracks(loads + [l], qs, answers + [a])
  {
    hide LoadStep;
  }

  /** One of two buckets has a free slot. */
  ghost predicate HaveRoom(m: Mem, b0: int, b1: int) {
    !IsFull(Look(m, b0)) || !IsFull(Look(m, b1))
  }

  /** One of two buckets, which held no more entries than the other, holds one entry more, and no other bucket changed. */
  ghost predicate PutInEmptier(m: Mem, m': Mem, b0: int, b1: int, e: Entry) {
    exists b :: PutAt(m, m', b, b0, b1, e)
  }

  ghost predicate PutAt(m: Mem, m': Mem, b: int, b0: int, b1: int, e: Entry) {
    && b in {b0, b1} && OnlyChanged(m, m', b) && HoldsOneMore(Look(m, b), Look(m', b), e)
    && |Entries(Look(m, b))| <= |Entries(Look(m, b0))| && |Entries(Look(m, b))| <= |Entries(Look(m, b1))|
  }

  lemma IsPut(m: Mem, m': Mem, b: int, b0: int, b1: int, e: Entry)
    requires b in {b0, b1} && OnlyChanged(m, m', b) && HoldsOneMore(Look(m, b), Look(m', b), e)
    requires |Entries(Look(m, b))| <= |Entries(Look(m, b0))| && |Entries(Look(m, b))| <= |Entries(Look(m, b1))|
    ensures PutInEmptier(m, m', b0, b1, e)
  {
    hide OnlyChanged, HoldsOneMore, Look;
    assert PutAt(m, m', b, b0, b1, e);
  }

  /** The load is 0.95 with at most one insert more. */
  ghost predicate Bounded(l: Load) {
    ValidGeometry(l.geo) && (l.size > 0 ==> 20 * (l.size - 1) < 19 * (4 * (l.geo.bl + l.geo.addr)))
  }

  lemma BoundedStep(l: Load, q: Request, a: Response, l': Load)
    requires Bounded(l) && LoadStep(l, q, a, l') && (a == Accepted(true) ==> q.Insert?)
    ensures Bounded(l')
  {
    GeometryFacts(l.geo);
    GrownValid(l.geo);
    hide ValidGeometry;
  }

  /** Over every run: the size never passes 0.95 of the slots by more than one insert; the level rises at an insert
      that finds the load at 0.95, and only there, by one. */
  lemma {:induction false} LoadLaw(loads: seq<Load>, history: seq<multiset<Entry>>, qs: seq<Request>, answers: seq<Response>, n: nat)
    requires Tracks(loads, qs, answers) && Explains(history, qs, answers) && Bounded(loads[0]) && n <= |answers|
    ensures Bounded(loads[n])
    ensures n < |answers| ==>
      && (loads[n + 1].geo != loads[n].geo <==> qs[n].Insert? && 20 * loads[n].size >= 19 * (4 * (loads[n].geo.bl + loads[n].geo.addr)))
      && loads[n].geo.level <= loads[n + 1].geo.level <= loads[n].geo.level + 1
  {
    hide ValidGeometry;
    if n > 0 {
      LoadLaw(loads, history, qs, answers, n - 1);
      assert Allowed(history[n - 1], qs[n - 1], answers[n - 1], history[n]);
      hide Bounded;
      BoundedStep(loads[n - 1], qs[n - 1], answers[n - 1], loads[n]);
    }
  }

  lemma JustifiesMore(moments: seq<Moment>, h: Hashes, history: seq<multiset<Entry>>, qs: seq<Request>, answers: seq<Response>,
                      t: Moment, a: Response, after: multiset<Entry>)
    requires Justifies(moments, h, history, qs, answers) && |history| == |answers| + 1 && |answers| < |qs|
    requires Decided(t, h, history[|answers|], qs[|answers|], a)
    ensures Justifies(moments + [t], h, history + [after], qs, answers + [a])
    ensures SomeLeaves(moments + [t], h, qs) <==> SomeLeaves(moments, h, qs) || Leaves(t, h, qs[|answers|])
  {
    hide Decided, Leaves;
    var all := moments + [t];
    assert all[|moments|] == t;
    if SomeLeaves(moments, h, qs) {
      var i :| 0 <= i < |moments| && i < |qs| && Leaves(moments[i], h, qs[i]);
      assert all[i] == moments[i];
    }
    if SomeLeaves(all, h, qs) {
      var i :| 0 <= i < |all| && i < |qs| && Leaves(all[i], h, qs[i]);
      if i < |moments| { assert all[i] == moments[i]; }
    }
  }

  lemma ExplainsMore(history: seq<multiset<Entry>>, qs: seq<Request>, answers: seq<Response>, a: Response, after: multiset<Entry>)
    requires Explains(history, qs, answers) && |answers| < |qs|
    requires Allowed(history[|answers|], qs[|answers|], a, after)
    ensures Explains(history + [after], qs, answers + [a])
  {
    hide Allowed;
  }

  lemma FilledArray<T>(a: array<T>, x: T)
    requires a.Length == CACHE_SIZE && forall i :: 0 <= i < a.Length ==> a[i] == x
    ensures a[..] == Filled(x)
  {
  }

  class Dpu {
    var geo: Geometry
    var host: HostMemory
    const cache: array<LevelBucket>
    const dirtyFlag: array<bool>
    const bucketIds: array<int>
    var bucketTable: map<int, int>
    var freeList: seq<int>
    const replacer: Replacer
    var constructed: seq<bool>
    var size: nat
    const hashes: Hashes
    /** False in the source. If true, an expansion records an access to a cached bucket before splitting it. */
    const touchFirst: bool

    /** First bucket not yet emptied by the expansion under way; otherwise the start of the bottom level. */
    ghost var floor: int
    /** Fetches issued and not awaited: buckets and their frames. */
    ghost var fetchBuckets: seq<int>
    ghost var fetchFrames: seq<int>
    /** DMA events since memory was `base`. */
    ghost var base: Memory
    ghost var log: seq<Event>

    ghost predicate Well()
      reads this, cache, dirtyFlag, bucketIds, replacer
    {
      && ValidGeometry(geo) && HostShape(geo, host) && geo.blStart <= floor <= geo.tlStart
      && cache.Length == dirtyFlag.Length == bucketIds.Length == CACHE_SIZE
      && replacer.Valid() && (|host| == THREADS + HALF ==> |constructed| == geo.addr * 2)
    }

    /** The state on values. */
    ghost function State(): Mem
      reads this, cache, dirtyFlag, bucketIds, replacer
    {
      Mem(floor, LiveEnd(geo, |host|), HostView(geo, host), cache[..], dirtyFlag[..], bucketTable,
          Lists(freeList, replacer.List(), bucketIds[..]))
    }

    ghost function Now(): Stage
      reads this, cache, dirtyFlag, bucketIds, replacer
    {
      Stage(State(), constructed)
    }

    ghost predicate Valid()
      reads this, cache, dirtyFlag, bucketIds, replacer
    {
      && Well() && |fetchBuckets| == |fetchFrames| && Sound(State(), fetchBuckets, fetchFrames, base, log)
      && Fresh(State(), geo.nextStart, constructed)
    }

    /** An empty store of the given starting level. */
    constructor (level: nat, hashes: Hashes, touchFirst: bool)
      requires level >= 3
      ensures Valid() && fresh(cache) && fresh(dirtyFlag) && fresh(bucketIds) && fresh(replacer)
      ensures geo == InitialGeometry(level) && Settled(State(), geo) && this.hashes == hashes && this.touchFirst == touchFirst && size == 0
      ensures cache.Length == 128 && |host| == 8
      ensures Quiet(State()) && Contents(State()) == multiset{} && Placed(State(), HomesIn(geo, hashes)) && Ready()
    {
      hide HostView, InitialHost, HostShape, Coherent, Settled, Placed, Sound, Fresh, ValidGeometry, Filled, Pow2;
      var g := InitialGeometry(level);
      geo := g;
      host := InitialHost(g);
      cache := new LevelBucket[CACHE_SIZE](_ => EMPTY_BUCKET);
      dirtyFlag := new bool[CACHE_SIZE](_ => false);
      bucketIds := new int[CACHE_SIZE](_ => -1);
      bucketTable := map[];
      freeList := seq(CACHE_SIZE, i => i);
      replacer := new Replacer();
      constructed := seq(g.addr * 2, _ => false);
      size := 0;
      this.hashes := hashes;
      this.touchFirst := touchFirst;
      floor := g.blStart;
      fetchBuckets, fetchFrames, log := [], [], [];
      base := MemoryOf(InitialMem(g));
      new;
      FilledArray(cache, EMPTY_BUCKET);
      FilledArray(dirtyFlag, false);
      FilledArray(bucketIds, -1);
      assert freeList == InitialMem(geo).lists.free;
      assert State() == InitialMem(geo);
      hide State, InitialMem;
      GeometryFacts(geo);
      InitialMemKeeps(geo, HomesIn(geo, hashes));
      EmptyLog(State());
      InitialFresh(geo, constructed);
    }

    // ---------- Frames ----------

    /** The frame is copied over its bucket's slot in the slice of the client that serves it. */
    method FlushBucket(frame: int)
      requires Well() && IsFrame(frame) && Live(State(), bucketIds[frame])
      modifies `host
      ensures Well() && |host| == old(|host|)
      ensures HostView(geo, host) == old(HostView(geo, host))[bucketIds[frame] := cache[frame]]
    {
      var bucket := bucketIds[frame];
      ViewPut(geo, host, bucket, cache[frame]);
      ClientBucketExact(geo, |host|, bucket);
      var (client, offset) := ClientBucket(geo, bucket);
      var slice: seq<LevelBucket> := host[client][offset / BUCKET_BYTES := cache[frame]];
      host := host[client := slice];
    }

    /** What FetchBucket and NewBucket share: pick the victim, write it back if dirty, rename it. */
    method TakeFrame(bucket: int) returns (frame: int)
      requires Well() && Takeable(State())
      modifies `host, `bucketTable, `freeList, dirtyFlag, bucketIds, replacer
      ensures Well() && |host| == old(|host|)
      ensures frame == Victim(old(State().lists)) && IsFrame(frame)
      ensures State() == Occupied(old(State()), bucket, old(cache[..])[frame])
    {
      hide HostView, ValidGeometry, HostShape, LiveEnd, Touch;
      ghost var m := State();
      frame := -1;
      if freeList == [] {
        frame := replacer.Evict();
        assert frame == Victim(m.lists);
        if dirtyFlag[frame] {
          FlushBucket(frame);
          dirtyFlag[frame] := false;
        }
      } else {
        frame := freeList[0];
        freeList := freeList[1..];
        dirtyFlag[frame] := false;
      }
      bucketTable := bucketTable - {bucketIds[frame]};
      bucketIds[frame] := bucket;
      replacer.RecordAccess(frame);
      assert dirtyFlag[..] == Put(m.dirty, frame, false);
      assert bucketIds[..] == Put(m.lists.ids, frame, bucket);
    }

    /** Takes a frame and copies the bucket's host memory into it. */
    method LoadFrame(bucket: int) returns (frame: int)
      requires Well() && Takeable(State()) && Live(State(), bucket)
      modifies `host, `bucketTable, `freeList, cache, dirtyFlag, bucketIds, replacer
      ensures Well() && |host| == old(|host|)
      ensures frame == Victim(old(State().lists))
      ensures State() == Fetched(old(State()), bucket)
    {
      ghost var m := State();
      frame := TakeFrame(bucket);
      ClientBucketExact(geo, |host|, bucket);
      var (client, offset) := ClientBucket(geo, bucket);
      assert host[client][offset / BUCKET_BYTES] == HostAt(geo, host, bucket) == HostView(geo, host)[bucket];
      cache[frame] := host[client][offset / BUCKET_BYTES];
      assert cache[..] == Put(m.frames, frame, cache[frame]);
    }

    /** Issues the fetch of a bucket that no frame is named for. `held` are frames that must stay; all of
        them are among the n < 128 most recently used. */
    method FetchBucket(bucket: int, ghost held: set<int>, ghost n: nat) returns (frame: int)
      requires Valid() && Live(State(), bucket) && Uncached(State(), bucket) && !Unused(geo.nextStart, constructed, bucket)
      requires FrameSet(fetchFrames) <= held && Recent(State().lists.lru, held, n) && n < CACHE_SIZE
      modifies `host, `bucketTable, `freeList, `fetchBuckets, `fetchFrames, `log, cache, dirtyFlag, bucketIds, replacer
      ensures Valid() && |host| == old(|host|)
      ensures State() == Fetched(old(State()), bucket) && frame == Victim(old(State().lists))
      ensures SameContent(old(State()), State()) && State().lists == Acquire(old(State()).lists, bucket)
      ensures fetchBuckets == old(fetchBuckets) + [bucket] && fetchFrames == old(fetchFrames) + [frame]
      ensures frame !in held && Stays(old(State()), State(), held) && forall b :: b in State().table ==> b in old(State().table)
      ensures FrameSet(fetchFrames) <= held + {frame} && Recent(State().lists.lru, held + {frame}, n + 1)
      ensures NoNewDirt(old(State()), State())
    {
      hide Sound, Fetched, HostView, Recent, SameContent, Uncached, Stays, Fresh, Acquire, Unused, NoNewDirt;
      FetchNoNewDirt(State(), fetchBuckets, fetchFrames, base, log, bucket);
      FreshFetch(State(), fetchBuckets, fetchFrames, base, log, bucket, geo.nextStart, constructed);
      SoundFetch(State(), fetchBuckets, fetchFrames, base, log, bucket, held, n);
      ghost var events := FetchEvents(State(), bucket);
      frame := LoadFrame(bucket);
      log := log + events;
      fetchBuckets, fetchFrames := fetchBuckets + [bucket], fetchFrames + [frame];
    }

    /** Awaits the oldest outstanding fetch and registers its bucket. */
    method AwaitFetch(bucket: int, frame: int)
      requires Valid() && fetchBuckets != [] && bucket == fetchBuckets[0] && frame == fetchFrames[0]
      modifies `bucketTable, `fetchBuckets, `fetchFrames, `log
      ensures Valid() && State() == Registered(old(State()), bucket, frame)
      ensures SameContent(old(State()), State())
      ensures fetchBuckets == old(fetchBuckets)[1..] && fetchFrames == old(fetchFrames)[1..]
      ensures NoNewDirt(old(State()), State())
    {
      hide Sound, HostView, SameContent, Fresh, NoNewDirt;
      ghost var m := State();
      RegisterNoNewDirt(m, fetchBuckets, fetchFrames, base, log, bucket, frame);
      SoundAwait(m, fetchBuckets, fetchFrames, base, log);
      FreshSame(m, Registered(m, bucket, frame), geo.nextStart, constructed);
      log := log + [Await(Fetch(frame, bucket))];
      bucketTable := bucketTable[bucket := frame];
      fetchBuckets, fetchFrames := fetchBuckets[1..], fetchFrames[1..];
    }

    method RecordAccess(bucket: int, ghost held: set<int>, ghost n: nat)
      requires Valid() && bucket in State().table && Recent(State().lists.lru, held, n)
      modifies replacer
      ensures Valid() && State() == Touched(old(State()), State().table[bucket])
      ensures SameContent(old(State()), State()) && State().lists == Acquire(old(State()).lists, bucket)
      ensures Recent(State().lists.lru, held + {State().table[bucket]}, n + 1)
      ensures NoNewDirt(old(State()), State())
    {
      hide Sound, HostView, SameContent, Recent, Fresh, Acquire, NoNewDirt;
      ghost var m := State();
      TouchNoNewDirt(m, fetchBuckets, fetchFrames, base, log, bucket);
      SoundTouch(m, fetchBuckets, fetchFrames, base, log, bucket, held, n);
      AccessIsAcquire(m, fetchBuckets, fetchFrames, base, log, bucket);
      FreshSame(m, Touched(m, m.table[bucket]), geo.nextStart, constructed);
      replacer.RecordAccess(bucketTable[bucket]);
    }

    /** Takes a frame and zeroes it. */
    method ZeroFrame(bucket: int) returns (frame: int)
      requires Well() && Takeable(State())
      modifies `host, `bucketTable, `freeList, cache, dirtyFlag, bucketIds, replacer
      ensures Well() && |host| == old(|host|)
      ensures frame == Victim(old(State().lists))
      ensures State() == Renewed(old(State()), bucket)
    {
      ghost var m := State();
      frame := TakeFrame(bucket);
      cache[frame] := EMPTY_BUCKET;
      assert cache[..] == Put(m.frames, frame, EMPTY_BUCKET);
    }

    /** A frame for a bucket of the next level that has not been used yet: zeroed, not fetched. */
    method NewBucket(bucket: int, ghost held: set<int>, ghost n: nat) returns (frame: int)
      requires Valid() && Live(State(), bucket) && Unused(geo.nextStart, constructed, bucket)
      requires FrameSet(fetchFrames) <= held && Recent(State().lists.lru, held, n) && n < CACHE_SIZE
      modifies `host, `bucketTable, `freeList, `constructed, `log, cache, dirtyFlag, bucketIds, replacer
      ensures Valid() && |host| == old(|host|)
      ensures frame == Victim(old(State().lists)) && State() == Registered(Renewed(old(State()), bucket), bucket, frame)
      ensures SameContent(old(State()), State()) && State().lists == Acquire(old(State()).lists, bucket)
      ensures frame !in held && Stays(old(State()), State(), held)
      ensures forall b :: b in State().table ==> b in old(State()).table || b == bucket
      ensures Recent(State().lists.lru, held + {frame}, n + 1)
      ensures NoNewDirt(old(State()), State())
      ensures constructed == Put(old(constructed), bucket - geo.nextStart, true)
    {
      hide Sound, HostView, SameContent, Recent, Untouched, Renewed, Stays, Fresh, Acquire, NoNewDirt;
      ghost var m := State();
      NewNoNewDirt(m, fetchBuckets, fetchFrames, base, log, bucket);
      FreshNew(m, fetchBuckets, fetchFrames, base, log, bucket, geo.nextStart, constructed);
      SoundNew(m, fetchBuckets, fetchFrames, base, log, bucket, held, n);
      RenewedTable(m, bucket);
      ghost var events := NewEvents(m);
      frame := ZeroFrame(bucket);
      bucketTable := bucketTable[bucket := frame];
      constructed := constructed[bucket - geo.nextStart := true];
      log := log + events;
    }

    lemma RegisteredFrame(bucket: int)
      requires Valid() && bucket in State().table
      ensures IsFrame(State().table[bucket])
    {
      RegisteredListed(State(), bucket);
    }

    /** Rewrites a frame and marks it dirty. */
    method PokeFrame(frame: int, x: LevelBucket)
      requires Well() && IsFrame(frame)
      modifies `log, cache, dirtyFlag
      ensures Well() && State() == Stored(old(State()), frame, x) && log == old(log) + [Poke(frame, x)]
    {
      hide HostView, ValidGeometry, HostShape;
      ghost var m := State();
      cache[frame] := x;
      dirtyFlag[frame] := true;
      log := log + [Poke(frame, x)];
      assert cache[..] == Put(m.frames, frame, x) && dirtyFlag[..] == Put(m.dirty, frame, true);
    }

    /** Writes back the outcome of a slot operation on a registered bucket. */
    method WriteSlots(bucket: int, x: LevelBucket)
      requires Valid() && Live(State(), bucket) && bucket in State().table
      modifies `log, cache, dirtyFlag
      ensures Valid() && State() == Stored(old(State()), State().table[bucket], x)
      ensures OnlyChanged(old(State()), State(), bucket) && Look(State(), bucket) == x
    {
      hide State, Well, Sound, Coherent, Fresh, Look;
      RegisteredFrame(bucket);
      ghost var m := State();
      SoundStore(m, fetchBuckets, fetchFrames, base, log, bucket, x);
      var r := Lookup(bucket);
      FreshSame(m, Stored(m, r.value, x), geo.nextStart, constructed);
      PokeFrame(r.value, x);
    }

    // ---------- Reading the state ----------

    /** The frame registered for a bucket, if any. */
    method Lookup(bucket: int) returns (frame: Option<int>)
      ensures frame.Some? <==> bucket in State().table
      ensures frame.Some? ==> frame.value == State().table[bucket]
    {
      frame := if bucket in bucketTable then Some(bucketTable[bucket]) else None;
    }

    /** The content of a registered bucket, read from its frame. */
    method ReadFrame(bucket: int) returns (x: LevelBucket)
      requires Valid() && bucket in State().table
      ensures x == Look(State(), bucket)
    {
      x := cache[bucketTable[bucket]];
    }

    lemma NotRegistered(bucket: int)
      requires Valid() && Live(State(), bucket) && bucket !in State().table && bucket !in fetchBuckets
      ensures Uncached(State(), bucket)
    {
      SoundUncached(State(), fetchBuckets, fetchFrames, base, log, bucket);
    }

    lemma NoneInFlight()
      requires Valid() && fetchBuckets == []
      ensures fetchFrames == [] && FrameSet(fetchFrames) == {} && Recent(State().lists.lru, {}, 0) && Quiet(State())
    {
    }

    lemma QuietExactly()
      requires Valid()
      ensures Quiet(State()) <==> fetchBuckets == []
    {
      ghost var m := State();
      if fetchBuckets != [] {
        assert m.lists.ids[fetchFrames[0]] == fetchBuckets[0] && fetchBuckets[0] !in m.table;
      }
    }

    /** Issues fetches for several buckets, none of them cached. */
    method IssueFetches(buckets: seq<int>) returns (frames: seq<int>)
      requires Valid() && fetchBuckets == [] && Distinct(buckets) && |buckets| <= 4
      requires forall b :: b in buckets ==> Live(State(), b) && b !in State().table && b < geo.nextStart
      modifies `host, `bucketTable, `freeList, `fetchBuckets, `fetchFrames, `log, cache, dirtyFlag, bucketIds, replacer
      ensures Valid() && |host| == old(|host|) && SameContent(old(State()), State())
      ensures fetchBuckets == buckets && fetchFrames == frames && |frames| == |buckets|
    {
      hide Valid, State, SameContent, Fetched, Recent, Uncached, FrameSet;
      frames := [];
      ghost var held: set<int> := {};
      NoneInFlight();
      SameRefl(State());
      for i := 0 to |buckets|
        invariant Valid() && |host| == old(|host|) && SameContent(old(State()), State())
        invariant fetchBuckets == buckets[..i] && fetchFrames == frames && |frames| == i
        invariant forall b :: b in buckets ==> b !in State().table
        invariant FrameSet(fetchFrames) <= held && Recent(State().lists.lru, held, i)
      {
        ghost var m := State();
        SameBounds(old(State()), m);
        assert buckets[i] in buckets && buckets[i] !in fetchBuckets;
        NotRegistered(buckets[i]);
        var frame := FetchBucket(buckets[i], held, i);
        SameTrans(old(State()), m, State());
        held := held + {frame};
        frames := frames + [frame];
        assert buckets[..i + 1] == buckets[..i] + [buckets[i]];
      }
      assert buckets[..|buckets|] == buckets;
    }

    /** Whatever order the client threads complete their requests in, memory ends up as in the state here. */
    lemma AnyInterleaving(run: seq<Step>)
      requires Valid() && Possible(base, run) && ProgramOf(run) == log && DmaSchedule.After(base, run).pending == []
      ensures DmaSchedule.After(base, run).mem == MemoryOf(State())
    {
      EveryInterleaving(base, run);
    }

    /** A registered bucket reads the same in every interleaving, also while fetches are in flight. */
    lemma AnyInterleavingReads(run: seq<Step>, bucket: int)
      requires Valid() && Possible(base, run) && ProgramOf(run) == log && bucket in bucketTable
      ensures IsFrame(bucketTable[bucket]) && cache.Length == CACHE_SIZE
      ensures At(DmaSchedule.After(base, run).mem.frames, bucketTable[bucket]) == cache[bucketTable[bucket]]
    {
      hide Sound, Fresh, HostView;
      ReadInFlight(State(), fetchBuckets, fetchFrames, base, log, run, bucket);
    }

    // ---------- Search ----------

    /** Between requests: no fetch in flight, no expansion under way, every entry in a candidate of its key. */
    ghost predicate Ready()
      reads this, cache, dirtyFlag, bucketIds, replacer
    {
      Valid() && fetchBuckets == [] && Settled(State(), geo) && Placed(State(), HomesIn(geo, hashes))
    }

    lemma StillReady(m: Mem)
      requires Valid() && fetchBuckets == [] && SameContent(m, State())
      requires Settled(m, geo) && Placed(m, HomesIn(geo, hashes))
      ensures Ready() && Contents(State()) == Contents(m)
    {
      SamePlaced(m, State(), HomesIn(geo, hashes));
      SameContents(m, State(), m.floor);
    }

    /** The registered ones among bs are searched in order, up to the first that has the key; the others
        are returned for fetching. */
    method SearchCached(bs: seq<int>, key: FixedKey) returns (r: Option<FixedValue>, toFetch: seq<int>)
      requires Valid() && fetchBuckets == [] && forall b :: b in bs ==> Live(State(), b)
      modifies replacer
      ensures Valid() && SameContent(old(State()), State()) && State().table == old(State()).table
      ensures r.Some? ==> exists b :: b in bs && Entry(key, r.value) in Entries(Look(old(State()), b))
      ensures r.None? ==> toFetch == Missing(bs, old(State()).table)
      ensures r.None? ==> forall b :: b in bs && b in old(State()).table ==> !HasKey(Entries(Look(old(State()), b)), key)
    {
      hide Valid, State, SameContent, HasKey, Entries;
      ghost var m0 := State();
      SameRefl(m0);
      r, toFetch := None, [];
      for i := 0 to |bs|
        invariant Valid() && SameContent(m0, State()) && State().table == m0.table
        invariant r.None? && toFetch == Missing(bs[..i], m0.table)
        invariant forall j :: 0 <= j < i && bs[j] in m0.table ==> !HasKey(Entries(Look(m0, bs[j])), key)
      {
        assert bs[..i + 1][..i] == bs[..i] && bs[i] in bs;
        var frame := Lookup(bs[i]);
        if frame.Some? {
          ghost var m := State();
          NoneInFlight();
          RecordAccess(bs[i], {}, 0);
          SameTrans(m0, m, State());
          SameAt(m0, State(), bs[i]);
          var x := ReadFrame(bs[i]);
          r := SearchSlot(x, key);
          if r.Some? {
            return;
          }
        } else {
          toFetch := toFetch + [bs[i]];
        }
      }
      assert bs[..|bs|] == bs;
    }

    /** All fetches are awaited and searched in order; the first value found is kept. */
    method SearchFetched(toFetch: seq<int>, frames: seq<int>, key: FixedKey) returns (r: Option<FixedValue>)
      requires Valid() && fetchBuckets == toFetch && fetchFrames == frames && |frames| == |toFetch|
      requires forall b :: b in toFetch ==> Live(State(), b)
      modifies `bucketTable, `fetchBuckets, `fetchFrames, `log
      ensures Valid() && fetchBuckets == [] && SameContent(old(State()), State())
      ensures r.Some? ==> exists b :: b in toFetch && Entry(key, r.value) in Entries(Look(old(State()), b))
      ensures r.None? ==> forall b :: b in toFetch ==> !HasKey(Entries(Look(old(State()), b)), key)
    {
      hide Valid, State, SameContent, HasKey, Entries;
      ghost var m0 := State();
      SameRefl(m0);
      r := None;
      for k := 0 to |toFetch|
        invariant Valid() && fetchBuckets == toFetch[k..] && fetchFrames == frames[k..] && SameContent(m0, State())
        invariant r.None? ==> forall j :: 0 <= j < k ==> !HasKey(Entries(Look(m0, toFetch[j])), key)
        invariant r.Some? ==> exists b :: b in toFetch && Entry(key, r.value) in Entries(Look(m0, b))
      {
        ghost var m := State();
        AwaitFetch(toFetch[k], frames[k]);
        SameTrans(m0, m, State());
        assert toFetch[k] in toFetch;
        SameAt(m0, State(), toFetch[k]);
        var x := ReadFrame(toFetch[k]);
        if r.None? {
          r := SearchSlot(x, key);
        }
      }
    }

    /** A value of the key if and only if one is live; nothing changes. */
    method ProcessSearch(key: FixedKey) returns (r: Option<FixedValue>)
      requires Ready()
      modifies `host, `bucketTable, `freeList, `fetchBuckets, `fetchFrames, `log, cache, dirtyFlag, bucketIds, replacer
      ensures Ready() && |host| == old(|host|) && Contents(State()) == old(Contents(State()))
      ensures r.Some? <==> HasKey(old(Contents(State())), key)
      ensures r.Some? ==> Entry(key, r.value) in old(Contents(State()))
    {
      hide Valid, State, SameContent, Settled, Placed, Candidates, Contents, HasKey, Entries, Look, Missing;
      ghost var m0 := State();
      var bs := Candidates(geo, hashes, key);
      CandidatesLive(m0, geo, hashes, key);
      var toFetch;
      r, toFetch := SearchCached(bs, key);
      ghost var m1 := State();
      SameBounds(m0, m1);
      if r.None? {
        MissingFacts(bs, m0.table);
        var frames := IssueFetches(toFetch);
        ghost var m2 := State();
        SameBounds(m1, m2);
        forall b | b in toFetch ensures Look(m2, b) == Look(m0, b) { SameAt(m0, m1, b); SameAt(m1, m2, b); }
        r := SearchFetched(toFetch, frames, key);
        SameTrans(m1, m2, State());
        SameTrans(m0, m1, State());
        if r.None? {
          NotFoundIsDead(m0, geo, hashes, key);
        }
      }
      if r.Some? {
        FoundIsLive(m0, geo, hashes, key, Entry(key, r.value));
      }
      StillReady(m0);
    }

    // ---------- Delete ----------

    /** Like Ready, but with fetches possibly in flight. */
    ghost predicate Steady()
      reads this, cache, dirtyFlag, bucketIds, replacer
    {
      Valid() && Settled(State(), geo) && Placed(State(), HomesIn(geo, hashes))
    }

    /** Frees a slot of a registered bucket that holds the key, if there is one. */
    method DeleteIn(bucket: int, key: FixedKey) returns (found: bool, ghost gone: Entry)
      requires Valid() && Live(State(), bucket) && bucket in State().table
      modifies `log, cache, dirtyFlag
      ensures Valid() && (found <==> HasKey(Entries(old(Look(State(), bucket))), key))
      ensures found ==> OnlyChanged(old(State()), State(), bucket) && gone.key == key
      ensures found ==> HoldsOneMore(Look(State(), bucket), old(Look(State(), bucket)), gone)
      ensures !found ==> State() == old(State())
    {
      hide Valid, State, OnlyChanged, HasKey, Entries, HoldsOneMore;
      var x := ReadFrame(bucket);
      var y, dirty;
      y, dirty, found, gone := DeleteSlot(x, key, false);
      if found {
        WriteSlots(bucket, y);
      }
    }

    /** The bucket `at` has lost the entry `gone`, whose key is `key`. */
    twostate predicate Removed(at: int, gone: Entry, key: FixedKey)
      reads this, cache, dirtyFlag, bucketIds, replacer
    {
      && Live(old(State()), at) && OnlyChanged(old(State()), State(), at) && gone.key == key
      && HoldsOneMore(Look(State(), at), Look(old(State()), at), gone)
    }

    method DeleteCached(bs: seq<int>, key: FixedKey)
      returns (found: bool, toFetch: seq<int>, ghost at: int, ghost gone: Entry)
      requires Valid() && fetchBuckets == [] && forall b :: b in bs ==> Live(State(), b)
      modifies `log, cache, dirtyFlag, replacer
      ensures Valid()
      ensures found ==> at in bs && at in old(State()).table && Removed(at, gone, key)
      ensures found ==> HasKey(Entries(Look(old(State()), at)), key)
      ensures !found ==> SameContent(old(State()), State()) && State().table == old(State()).table
      ensures !found ==> toFetch == Missing(bs, old(State()).table)
      ensures !found ==> forall b :: b in bs && b in old(State()).table ==> !HasKey(Entries(Look(old(State()), b)), key)
    {
      hide Valid, State, SameContent, HasKey, Entries, HoldsOneMore, OnlyChanged, Look;
      ghost var m0 := State();
      SameRefl(m0);
      found, toFetch, at, gone := false, [], 0, Entry(0, 0);
      for i := 0 to |bs|
        invariant Valid() && SameContent(m0, State()) && State().table == m0.table
        invariant !found && toFetch == Missing(bs[..i], m0.table)
        invariant forall j :: 0 <= j < i && bs[j] in m0.table ==> !HasKey(Entries(Look(m0, bs[j])), key)
      {
        assert bs[..i + 1][..i] == bs[..i] && bs[i] in bs;
        var frame := Lookup(bs[i]);
        if frame.Some? {
          ghost var m := State();
          NoneInFlight();
          RecordAccess(bs[i], {}, 0);
          ghost var m1 := State();
          SameTrans(m0, m, m1);
          SameAt(m0, m1, bs[i]);
          SameBounds(m0, m1);
          found, gone := DeleteIn(bs[i], key);
          if found {
            at := bs[i];
            SameThenChanged(m0, m1, State(), at);
            return;
          }
        } else {
          toFetch := toFetch + [bs[i]];
        }
      }
      assert bs[..|bs|] == bs;
    }

    /** Fetches are awaited in order up to the first one whose bucket has the key; later ones are not awaited. */
    method DeleteFetched(toFetch: seq<int>, frames: seq<int>, key: FixedKey)
      returns (found: bool, left: nat, ghost at: int, ghost gone: Entry)
      requires Valid() && fetchBuckets == toFetch && fetchFrames == frames && |frames| == |toFetch|
      requires forall b :: b in toFetch ==> Live(State(), b)
      modifies `bucketTable, `fetchBuckets, `fetchFrames, `log, cache, dirtyFlag
      ensures Valid() && left <= |toFetch| && fetchBuckets == toFetch[left..] && fetchFrames == frames[left..]
      ensures fetchBuckets == AfterFirst(old(State()), toFetch, key)
      ensures found ==> at in toFetch && Removed(at, gone, key) && HasKey(Entries(Look(old(State()), at)), key)
      ensures !found ==> left == |toFetch| && SameContent(old(State()), State())
      ensures !found ==> forall b :: b in toFetch ==> !HasKey(Entries(Look(old(State()), b)), key)
    {
      hide Valid, State, SameContent, HasKey, Entries, HoldsOneMore, OnlyChanged, Look, AfterFirst;
      ghost var m0 := State();
      SameRefl(m0);
      found, at, gone := false, 0, Entry(0, 0);
      for k := 0 to |toFetch|
        invariant Valid() && fetchBuckets == toFetch[k..] && fetchFrames == frames[k..] && SameContent(m0, State())
        invariant !found && forall j :: 0 <= j < k ==> !HasKey(Entries(Look(m0, toFetch[j])), key)
      {
        ghost var m := State();
        AwaitFetch(toFetch[k], frames[k]);
        ghost var m1 := State();
        SameTrans(m0, m, m1);
        assert toFetch[k] in toFetch;
        SameAt(m0, m1, toFetch[k]);
        SameBounds(m0, m1);
        found, gone := DeleteIn(toFetch[k], key);
        if found {
          at, left := toFetch[k], k + 1;
          SameThenChanged(m0, m1, State(), at);
          AfterFirstAt(m0, toFetch, key, k);
          return;
        }
      }
      left := |toFetch|;
      AfterFirstNone(m0, toFetch, key);
    }

    lemma RemovedSteady(m: Mem, at: int, gone: Entry)
      requires Valid() && Settled(m, geo) && Placed(m, HomesIn(geo, hashes))
      requires Live(m, at) && OnlyChanged(m, State(), at) && HoldsOneMore(Look(State(), at), Look(m, at), gone)
      ensures Steady() && Contents(m) == Contents(State()) + multiset{gone}
    {
      EntryRemoved(m, State(), at, gone, HomesIn(geo, hashes));
    }

    /** Removes one entry of the key if one is live. The fetches returned are left unawaited. */
    method ProcessDelete(key: FixedKey)
      returns (found: bool, unawaited: seq<int>, frames: seq<int>, ghost gone: Entry)
      requires Ready()
      modifies `host, `bucketTable, `freeList, `fetchBuckets, `fetchFrames, `log, cache, dirtyFlag, bucketIds, replacer
      ensures Steady() && |host| == old(|host|)
      ensures found <==> HasKey(old(Contents(State())), key)
      ensures found ==> gone.key == key && old(Contents(State())) == Contents(State()) + multiset{gone}
      ensures !found ==> Contents(State()) == old(Contents(State()))
      ensures unawaited == fetchBuckets == LeftBehind(old(State()), Candidates(geo, hashes, key), key)
      ensures frames == fetchFrames && |frames| == |unawaited|
      ensures Quiet(State()) <==> LeftBehind(old(State()), Candidates(geo, hashes, key), key) == []
    {
      hide Valid, State, SameContent, Settled, Placed, Candidates, Contents, HasKey, Entries, Look, Missing, OnlyChanged, HoldsOneMore, AfterFirst;
      ghost var m0 := State();
      var bs := Candidates(geo, hashes, key);
      CandidatesLive(m0, geo, hashes, key);
      var toFetch;
      ghost var at;
      found, toFetch, at, gone := DeleteCached(bs, key);
      unawaited, frames := [], [];
      if found {
        NoneInFlight();
        RemovedSteady(m0, at, gone);
        KeyLive(m0, geo, hashes, key, at);
        QuietExactly();
        return;
      }
      ghost var m1 := State();
      SameBounds(m0, m1);
      MissingFacts(bs, m0.table);
      frames := IssueFetches(toFetch);
      ghost var m2 := State();
      SameTrans(m0, m1, m2);
      SameBounds(m0, m2);
      forall b | b in toFetch ensures Look(m2, b) == Look(m0, b) { SameAt(m0, m2, b); }
      AfterFirstSame(m0, m2, toFetch, key);
      var left;
      found, left, at, gone := DeleteFetched(toFetch, frames, key);
      unawaited, frames := toFetch[left..], frames[left..];
      if found {
        SameThenChanged(m0, m2, State(), at);
        RemovedSteady(m0, at, gone);
        KeyLive(m0, geo, hashes, key, at);
      } else {
        NotFoundIsDead(m0, geo, hashes, key);
        SameTrans(m0, m2, State());
        StillReady(m0);
      }
      QuietExactly();
    }

    /** Awaits the fetches a delete has left in flight. */
    method AwaitAll(buckets: seq<int>, frames: seq<int>)
      requires Steady() && fetchBuckets == buckets && fetchFrames == frames && |frames| == |buckets|
      modifies `bucketTable, `fetchBuckets, `fetchFrames, `log
      ensures Ready() && Contents(State()) == old(Contents(State()))
    {
      hide Valid, State, SameContent, Settled, Placed, Contents;
      ghost var m0 := State();
      SameRefl(m0);
      for k := 0 to |buckets|
        invariant Valid() && fetchBuckets == buckets[k..] && fetchFrames == frames[k..] && SameContent(m0, State())
      {
        ghost var m := State();
        AwaitFetch(buckets[k], frames[k]);
        SameTrans(m0, m, State());
      }
      StillReady(m0);
    }

    // ---------- Insert ----------

    /** Adds an entry to a registered bucket unless it is full. */
    method InsertIn(bucket: int, e: Entry) returns (ok: bool)
      requires Valid() && Live(State(), bucket) && bucket in State().table
      modifies `log, cache, dirtyFlag
      ensures Valid() && (ok <==> !IsFull(old(Look(State(), bucket))))
      ensures State().table == old(State()).table && State().lists == old(State()).lists
      ensures ok ==> OnlyChanged(old(State()), State(), bucket)
      ensures ok ==> HoldsOneMore(old(Look(State(), bucket)), Look(State(), bucket), e)
      ensures !ok ==> State() == old(State())
      ensures ok ==> State() == Stored(old(State()), old(State()).table[bucket], InsertedInto(old(Look(State(), bucket)), e))
    {
      hide Valid, State, OnlyChanged, IsFull, HoldsOneMore, InsertedInto, Look;
      var x := ReadFrame(bucket);
      var y, dirty;
      y, dirty, ok := InsertSlot(x, e, false);
      if ok {
        WriteSlots(bucket, y);
      }
    }

    /** A zeroed frame for an unused bucket of the next level; otherwise an access to a registered bucket is
        recorded, or the fetch of an unregistered one issued. Frames in `held` stay. */
    method RequestBucket(bucket: int, ghost held: set<int>, ghost n: nat) returns (frame: int, inFlight: bool)
      requires Valid() && Live(State(), bucket) && bucket !in fetchBuckets
      requires FrameSet(fetchFrames) <= held && Recent(State().lists.lru, held, n) && n < CACHE_SIZE
      modifies `host, `bucketTable, `freeList, `constructed, `fetchBuckets, `fetchFrames, `log, cache, dirtyFlag, bucketIds, replacer
      ensures Valid() && |host| == old(|host|) && SameContent(old(State()), State())
      ensures inFlight ==> fetchBuckets == old(fetchBuckets) + [bucket] && fetchFrames == old(fetchFrames) + [frame]
      ensures !inFlight ==> fetchBuckets == old(fetchBuckets) && fetchFrames == old(fetchFrames)
      ensures !inFlight ==> bucket in State().table && State().table[bucket] == frame
      ensures Stays(old(State()), State(), held) && State().lists == Acquire(old(State()).lists, bucket)
      ensures FrameSet(fetchFrames) <= held + {frame} && Recent(State().lists.lru, held + {frame}, n + 1)
      ensures forall b :: b in State().table ==> b in old(State()).table || b == bucket
      ensures NoNewDirt(old(State()), State())
      ensures Now() == Requested(old(Now()), geo.nextStart, bucket) && frame == FrameOf(old(Now()), geo.nextStart, bucket)
      ensures inFlight <==> bucket !in State().table
    {
      hide Valid, State, SameContent, Recent, FrameSet, Fetched, Renewed, Acquire, NoNewDirt;
      if bucket >= geo.nextStart { InRange(bucket); }
      if bucket >= geo.nextStart && !constructed[bucket - geo.nextStart] {
        inFlight := false;
        frame := NewBucket(bucket, held, n);
      } else {
        var r := Lookup(bucket);
        inFlight := r.None?;
        if inFlight {
          NotRegistered(bucket);
          frame := FetchBucket(bucket, held, n);
        } else {
          frame := r.value;
          RecordAccess(bucket, held, n);
        }
      }
    }

    /** A live bucket of the next level has a flag that says whether it has been used. */
    lemma InRange(bucket: int)
      requires Valid() && Live(State(), bucket) && bucket >= geo.nextStart
      ensures bucket - geo.nextStart < |constructed|
    {
      hide Sound, Fresh;
      GeometryFacts(geo);
    }

    /** Two buckets are brought into the cache, their fetches in flight together. */
    method FetchTwo(b0: int, b1: int, ghost kept: set<int>, ghost held: set<int>, ghost n: nat) returns (ghost held': set<int>)
      requires Valid() && fetchBuckets == [] && b0 != b1 && Live(State(), b0) && Live(State(), b1)
      requires Kept(State(), kept, held) && Recent(State().lists.lru, held, n) && n < CACHE_SIZE - 1
      modifies `host, `bucketTable, `freeList, `constructed, `fetchBuckets, `fetchFrames, `log, cache, dirtyFlag, bucketIds, replacer
      ensures Valid() && fetchBuckets == [] && |host| == old(|host|) && SameContent(old(State()), State())
      ensures State().lists == Acquire(Acquire(old(State()).lists, b0), b1)
      ensures held <= held' && Kept(State(), kept + {b0, b1}, held') && Recent(State().lists.lru, held', n + 2)
      ensures forall b :: b in State().table ==> b in old(State()).table || b in {b0, b1}
      ensures NoNewDirt(old(State()), State())
      ensures Now() == BothFetched(old(Now()), geo.nextStart, b0, b1)
    {
      hide Valid, State, SameContent, Recent, FrameSet, Kept, Stays, Acquire, NoNewDirt, Requested, FrameOf;
      ghost var m0 := State();
      NoneInFlight();
      var f0, p0 := RequestBucket(b0, held, n);
      ghost var m1, h1 := State(), held + {f0};
      SameBounds(m0, m1);
      KeptStays(m0, m1, kept, held, h1);
      var f1, p1 := RequestBucket(b1, h1, n + 1);
      ghost var m2 := State();
      held' := h1 + {f1};
      SameTrans(m0, m1, m2);
      NoNewDirtTrans(m0, m1, m2);
      KeptStays(m1, m2, kept, h1, held');
      if !p0 { StaysAt(m1, m2, b0, h1); }
      ghost var kept' := kept;
      if p0 {
        AwaitFetch(b0, f0);
        SameTrans(m0, m2, State());
        NoNewDirtTrans(m0, m2, State());
        KeptRegistered(m2, b0, f0, kept', held');
      } else {
        KeptMore(m2, b0, kept', held');
      }
      kept' := kept' + {b0};
      ghost var m3 := State();
      if p1 {
        AwaitFetch(b1, f1);
        SameTrans(m0, m3, State());
        NoNewDirtTrans(m0, m3, State());
        KeptRegistered(m3, b1, f1, kept', held');
      } else {
        KeptMore(m3, b1, kept', held');
      }
      assert kept' + {b1} == kept + {b0, b1};
    }

    /** The entry goes into the emptier of two buckets; refused only if both are full. */
    method TryInsertInto2Buckets(b0: int, b1: int, e: Entry, ghost kept: set<int>, ghost held: set<int>, ghost n: nat)
      returns (ok: bool, ghost at: int, ghost held': set<int>, ghost m: Mem)
      requires Valid() && fetchBuckets == [] && b0 != b1 && Live(State(), b0) && Live(State(), b1)
      requires Kept(State(), kept, held) && Recent(State().lists.lru, held, n) && n < CACHE_SIZE - 1
      modifies `host, `bucketTable, `freeList, `constructed, `fetchBuckets, `fetchFrames, `log, cache, dirtyFlag, bucketIds, replacer
      ensures Valid() && fetchBuckets == [] && |host| == old(|host|)
      ensures ok <==> !(IsFull(old(Look(State(), b0))) && IsFull(old(Look(State(), b1))))
      ensures State().lists == Acquire(Acquire(old(State()).lists, b0), b1)
      ensures ok ==> at in {b0, b1} && OnlyChanged(old(State()), State(), at)
      ensures ok ==> HoldsOneMore(old(Look(State(), at)), Look(State(), at), e)
      ensures !ok ==> SameContent(old(State()), State())
      ensures !ok ==> Kept(State(), kept + {b0, b1}, held') && Recent(State().lists.lru, held', n + 2)
      ensures forall b :: b in State().table ==> b in old(State()).table || b in {b0, b1}
      ensures |Entries(old(Look(State(), at)))| <= |Entries(old(Look(State(), b0)))| && |Entries(old(Look(State(), at)))| <= |Entries(old(Look(State(), b1)))|
      ensures var s := BothFetched(old(Now()), geo.nextStart, b0, b1);
        && at == Emptier(s.m, b0, b1) && (ok <==> !IsFull(Look(s.m, at)))
        && Now() == if ok then Inserting(s, at, e) else s
    {
      hide Valid, State, SameContent, Recent, Kept, HoldsOneMore, OnlyChanged, Entries, Acquire, BothFetched, Stored, InsertedInto, Look;
      ghost var m0 := State();
      held' := FetchTwo(b0, b1, kept, held, n);
      m := State();
      KeptIn(m, b0, kept + {b0, b1}, held');
      KeptIn(m, b1, kept + {b0, b1}, held');
      SameAt(m0, m, b0);
      SameAt(m0, m, b1);
      SameBounds(m0, m);
      var x0 := ReadFrame(b0);
      var x1 := ReadFrame(b1);
      FullTokens(x0);
      FullTokens(x1);
      var c0 := Count(x0);
      var c1 := Count(x1);
      at := if c0 > c1 then b1 else b0;
      if c0 > c1 {
        ok := InsertIn(b1, e);
      } else {
        ok := InsertIn(b0, e);
      }
      if ok { SameThenChanged(m0, m, State(), at); }
    }

    /** Nothing has changed, and the buckets `kept` are registered in frames that are all among the n most
        recently used. */
    ghost predicate Unmoved(m: Mem, kept: set<int>, held: set<int>, n: nat)
      reads this, cache, dirtyFlag, bucketIds, replacer
    {
      && Valid() && fetchBuckets == [] && SameContent(m, State())
      && Kept(State(), kept, held) && Recent(State().lists.lru, held, n)
    }

    /** The new entry is in and nothing else has been gained or lost. */
    ghost predicate Inserted(m: Mem, e: Entry)
      reads this, cache, dirtyFlag, bucketIds, replacer
    {
      && Valid() && fetchBuckets == [] && State().floor == m.floor && State().end == m.end
      && Contents(State()) == Contents(m) + multiset{e} && Placed(State(), HomesIn(geo, hashes))
    }

    /** Brings one more bucket into the cache. */
    method FetchOne(bucket: int, ghost m: Mem, ghost kept: set<int>, ghost held: set<int>, ghost n: nat)
      requires Unmoved(m, kept, held, n) && Live(m, bucket) && bucket < geo.nextStart && n < CACHE_SIZE
      modifies `host, `bucketTable, `freeList, `fetchBuckets, `fetchFrames, `log, cache, dirtyFlag, bucketIds, replacer
      ensures Unmoved(m, kept, held, n + 1) && |host| == old(|host|) && bucket in State().table
    {
      hide Valid, State, SameContent, Recent, Kept, Stays, FrameSet, Fetched, Acquire;
      ghost var m0 := State();
      SameBounds(m, m0);
      var r := Lookup(bucket);
      if r.None? {
        NoneInFlight();
        NotRegistered(bucket);
        var frame := FetchBucket(bucket, held, n);
        ghost var m1 := State();
        KeptStays(m0, m1, kept, held, held + {frame});
        KeptOnly(m0, m1, kept, held);
        AwaitFetch(bucket, frame);
        KeptAlso(m1, bucket, frame, kept, held);
        SameTrans(m, m0, m1);
        SameTrans(m, m1, State());
        SubWindow(State().lists.lru, held + {frame}, held, n + 1);
      } else {
        RecentMore(m0.lists.lru, held, n, n + 1);
      }
    }

    /** Moves the entry in a slot of the full bucket src to dst, unless dst is full, and puts e in its place. */
    method MoveTo(src: int, slot: nat, dst: int, e: Entry, ghost m: Mem, ghost kept: set<int>, ghost held: set<int>, ghost n: nat)
      returns (moved: bool)
      requires Unmoved(m, kept, held, n) && Live(m, src) && Live(m, dst) && dst < geo.nextStart && src != dst && src in kept && n < CACHE_SIZE
      requires slot < ASSOC_NUM && IsFull(Look(m, src)) && Placed(m, HomesIn(geo, hashes))
      requires HomesIn(geo, hashes)(Look(m, src).slots[slot].key, dst) && HomesIn(geo, hashes)(e.key, src)
      modifies `host, `bucketTable, `freeList, `fetchBuckets, `fetchFrames, `log, cache, dirtyFlag, bucketIds, replacer
      ensures |host| == old(|host|) && (moved <==> !IsFull(Look(m, dst)))
      ensures moved ==> Inserted(m, e)
      ensures !moved ==> Unmoved(m, kept, held, n + 1)
    {
      hide Valid, State, SameContent, Recent, Kept, Placed, HomesIn, Entries, HoldsOneMore, OnlyChanged, Contents;
      FetchOne(dst, m, kept, held, n);
      ghost var m1 := State();
      KeptIn(m1, src, kept, held);
      SameAt(m, m1, src);
      SameAt(m, m1, dst);
      SameBounds(m, m1);
      var x := ReadFrame(src);
      FullTokens(x);
      var y := x.slots[slot];
      moved := InsertIn(dst, y);
      if moved {
        ghost var m2 := State();
        ChangedElsewhere(m1, m2, dst, src);
        SlotFreed(x, slot);
        var z := FreeSlot(x, slot);
        FullTokens(z);
        var w, dirty, ok := InsertSlot(z, e, false);
        WriteSlots(src, w);
        SameThenChanged(m, m1, m2, dst);
        EntryMoved(m, m2, State(), src, dst, z, y, e, HomesIn(geo, hashes));
        ChangedBounds(m, m2, dst);
        ChangedBounds(m2, State(), src);
      }
    }

    /** MoveTo as it is with the final insert compiled out: the entry changes its bucket, its old slot is freed
        without marking the frame, and the new entry is nowhere, though the source goes on to report success. The
        cache is broken exactly when the frame of src was clean. */
    method MoveToUninserted(src: int, slot: nat, dst: int, ghost m: Mem, ghost kept: set<int>, ghost held: set<int>, ghost n: nat)
      returns (moved: bool, ghost before: Mem)
      requires Unmoved(m, kept, held, n) && Live(m, src) && Live(m, dst) && dst < geo.nextStart && src != dst && src in kept && n < CACHE_SIZE
      requires slot < ASSOC_NUM && IsFull(Look(m, src)) && Placed(m, HomesIn(geo, hashes))
      requires HomesIn(geo, hashes)(Look(m, src).slots[slot].key, dst)
      modifies `host, `bucketTable, `freeList, `fetchBuckets, `fetchFrames, `log, cache, dirtyFlag, bucketIds, replacer
      ensures moved <==> !IsFull(Look(m, dst))
      ensures moved ==> Contents(State()) == Contents(m) && Look(State(), src) == FreeSlot(Look(m, src), slot)
      ensures moved ==> Shape(before) && src in before.table && IsFrame(before.table[src])
      ensures moved ==> (Coherent(State()) <==> before.dirty[before.table[src]])
      ensures !moved ==> Unmoved(m, kept, held, n + 1)
    {
      hide Valid, State, SameContent, Recent, Kept, Placed, HomesIn, Entries, HoldsOneMore, OnlyChanged, Contents, Look, Coherent, Shape;
      FetchOne(dst, m, kept, held, n);
      ghost var m1 := State();
      KeptIn(m1, src, kept, held);
      SameAt(m, m1, src);
      SameAt(m, m1, dst);
      SameBounds(m, m1);
      var x := ReadFrame(src);
      FullTokens(x);
      var y := x.slots[slot];
      moved := InsertIn(dst, y);
      before := State();
      if moved {
        ChangedElsewhere(m1, before, dst, src);
        SlotFreed(x, slot);
        var z := FreeSlot(x, slot);
        var r := Lookup(src);
        RegisteredFrame(src);
        ChangedBounds(m1, before, dst);
        CoherentNow();
        SlipExactly(before, src, z);
        SlipFrame(r.value, z);
        SameThenChanged(m, m1, before, dst);
        MovedOnly(m, before, State(), src, dst, y, HomesIn(geo, hashes));
      }
    }

    lemma CoherentNow()
      requires Valid()
      ensures Coherent(State()) && Shape(State())
    {
      hide Fresh, Logged, InFlight, FrameSound;
    }

    method SlipFrame(frame: int, x: LevelBucket)
      requires Valid() && IsFrame(frame)
      modifies cache
      ensures State() == Slipped(old(State()), frame, x)
    {
      hide HostView, Sound, Fresh;
      ghost var m := State();
      cache[frame] := x;
      assert cache[..] == Put(m.frames, frame, x);
    }

    /** Tries the two top-level candidates of the entry in one slot of src. */
    method MoveSlot(src: int, slot: nat, e: Entry, ghost m: Mem, ghost kept: set<int>, ghost held: set<int>, ghost n: nat)
      returns (moved: bool)
      requires Unmoved(m, kept, held, n) && Live(m, src) && src in kept && n < CACHE_SIZE - 1
      requires Settled(m, geo) && slot < ASSOC_NUM && IsFull(Look(m, src)) && Placed(m, HomesIn(geo, hashes))
      requires HomesIn(geo, hashes)(e.key, src)
      modifies `host, `bucketTable, `freeList, `fetchBuckets, `fetchFrames, `log, cache, dirtyFlag, bucketIds, replacer
      ensures |host| == old(|host|)
      ensures moved <==> !(forall j :: 0 <= j < 2 ==> NoRoomFor(m, geo, hashes, src, slot, j))
      ensures moved ==> Inserted(m, e)
      ensures !moved ==> Unmoved(m, kept, held, n + 2)
    {
      hide Valid, State, SameContent, Recent, Kept, Placed, HomesIn, Settled, Candidates, Unmoved, Inserted, IsFull;
      moved := false;
      for j := 0 to 2
        invariant |host| == old(|host|) && Unmoved(m, kept, held, n + j) && !moved
        invariant forall i :: 0 <= i < j ==> NoRoomFor(m, geo, hashes, src, slot, i)
      {
        var x := ReadKept(src, m, kept, held, n + j);
        var dsts := Candidates(geo, hashes, x.slots[slot].key);
        CandidatesLive(m, geo, hashes, x.slots[slot].key);
        var dst := dsts[j];
        assert dst in dsts;
        if dst != src {
          CandidateIsHome(m, geo, hashes, x.slots[slot].key, dst);
          moved := MoveTo(src, slot, dst, e, m, kept, held, n + j);
          if moved {
            assert !NoRoomFor(m, geo, hashes, src, slot, j);
            return;
          }
        } else {
          UnmovedMore(m, kept, held, n + j);
        }
      }
    }

    method ReadKept(bucket: int, ghost m: Mem, ghost kept: set<int>, ghost held: set<int>, ghost n: nat) returns (x: LevelBucket)
      requires Unmoved(m, kept, held, n) && bucket in kept && Live(m, bucket)
      ensures x == Look(m, bucket)
    {
      hide Valid, State, SameContent, Recent, Kept, Look;
      KeptIn(State(), bucket, kept, held);
      SameAt(m, State(), bucket);
      x := ReadFrame(bucket);
    }

    lemma UnmovedMore(m: Mem, kept: set<int>, held: set<int>, n: nat)
      requires Unmoved(m, kept, held, n)
      ensures Unmoved(m, kept, held, n + 1)
    {
      hide Valid, State, SameContent, Recent, Kept;
      RecentMore(State().lists.lru, held, n, n + 1);
    }

    /** Tries every slot of src. */
    method MoveFrom(src: int, e: Entry, ghost m: Mem, ghost kept: set<int>, ghost held: set<int>, ghost n: nat)
      returns (moved: bool)
      requires Unmoved(m, kept, held, n) && Live(m, src) && src in kept && n < CACHE_SIZE - 8
      requires Settled(m, geo) && IsFull(Look(m, src)) && Placed(m, HomesIn(geo, hashes))
      requires HomesIn(geo, hashes)(e.key, src)
      modifies `host, `bucketTable, `freeList, `fetchBuckets, `fetchFrames, `log, cache, dirtyFlag, bucketIds, replacer
      ensures |host| == old(|host|) && (moved <==> !Immovable(m, geo, hashes, src))
      ensures moved ==> Inserted(m, e)
      ensures !moved ==> Unmoved(m, kept, held, n + 8)
    {
      hide Valid, State, Placed, HomesIn, Settled, Candidates, Unmoved, Inserted, IsFull, NoRoomFor;
      moved := false;
      for slot := 0 to ASSOC_NUM
        invariant |host| == old(|host|) && Unmoved(m, kept, held, n + 2 * slot) && !moved
        invariant forall i, j :: 0 <= i < slot && 0 <= j < 2 ==> NoRoomFor(m, geo, hashes, src, i, j)
      {
        moved := MoveSlot(src, slot, e, m, kept, held, n + 2 * slot);
        if moved {
          return;
        }
      }
    }

    lemma AddedReady(m: Mem, at: int, e: Entry)
      requires Valid() && fetchBuckets == [] && OnlyChanged(m, State(), at)
      requires Settled(m, geo) && Placed(m, HomesIn(geo, hashes)) && at in Candidates(geo, hashes, e.key)
      requires HoldsOneMore(Look(m, at), Look(State(), at), e)
      ensures Ready() && Contents(State()) == Contents(m) + multiset{e}
    {
      hide Valid, State, HoldsOneMore, Placed, HomesIn, Candidates, Look, Entries, ContentsFrom;
      CandidatesLive(m, geo, hashes, e.key);
      CandidateIsHome(m, geo, hashes, e.key, at);
      EntryAdded(m, State(), at, e, HomesIn(geo, hashes), m.floor);
    }

    lemma InsertedReady(m: Mem, e: Entry)
      requires Inserted(m, e) && Settled(m, geo)
      ensures Ready() && Contents(State()) == Contents(m) + multiset{e}
    {
    }

    /** The entry is added, moving one other entry if need be; refused exactly if all four candidates are
        full and none of their entries can be moved. */
    method InsertEntry(e: Entry) returns (ok: bool)
      requires Ready()
      modifies `host, `bucketTable, `freeList, `constructed, `fetchBuckets, `fetchFrames, `log, cache, dirtyFlag, bucketIds, replacer
      ensures Ready() && |host| == old(|host|)
      ensures ok <==> !Stuck(old(State()), geo, hashes, e.key)
      ensures ok ==> Contents(State()) == old(Contents(State())) + multiset{e}
      ensures !ok ==> Contents(State()) == old(Contents(State()))
      ensures var bs := Candidates(geo, hashes, e.key);
        && |bs| == 4
        && (HaveRoom(old(State()), bs[0], bs[1]) ==> PutInEmptier(old(State()), State(), bs[0], bs[1], e))
        && (!HaveRoom(old(State()), bs[0], bs[1]) && HaveRoom(old(State()), bs[2], bs[3]) ==>
            PutInEmptier(old(State()), State(), bs[2], bs[3], e))
    {
      hide Valid, State, SameContent, Settled, Placed, Candidates, Contents, Entries, Look, OnlyChanged, HoldsOneMore,
        IsFull, Immovable, Kept, Recent, HomesIn, Inserted, Acquire, Now, BothFetched, Emptier, Inserting, PutInEmptier;
      ghost var m0 := State();
      var bs := Candidates(geo, hashes, e.key);
      CandidatesLive(m0, geo, hashes, e.key);
      NoneInFlight();
      NothingKept(m0);
      ghost var at, held, m;
      ok, at, held, m := TryInsertInto2Buckets(bs[0], bs[1], e, {}, {}, 0);
      if ok {
        IsPut(m0, State(), at, bs[0], bs[1], e);
        AddedReady(m0, at, e);
        return;
      }
      ghost var m1 := State();
      SameBounds(m0, m1);
      SameAt(m0, m1, bs[2]);
      SameAt(m0, m1, bs[3]);
      ghost var top := {} + {bs[0], bs[1]};
      ok, at, held, m := TryInsertInto2Buckets(bs[2], bs[3], e, top, held, 2);
      if ok {
        SameThenChanged(m0, m1, State(), at);
        IsPut(m0, State(), at, bs[2], bs[3], e);
        AddedReady(m0, at, e);
        return;
      }
      SameTrans(m0, m1, State());
      ghost var kept := top + {bs[2], bs[3]};
      for i := 0 to 4
        invariant |host| == old(|host|) && Unmoved(m0, kept, held, 4 + 8 * i) && !ok
        invariant forall k :: 0 <= k < i ==> Immovable(m0, geo, hashes, bs[k])
      {
        assert bs[i] in bs && bs[i] in kept;
        CandidateIsHome(m0, geo, hashes, e.key, bs[i]);
        ok := MoveFrom(bs[i], e, m0, kept, held, 4 + 8 * i);
        if ok {
          InsertedReady(m0, e);
          return;
        }
      }
      StillReady(m0);
    }

    // ---------- Expansion ----------

    /** An expansion is under way and all buckets below the floor have been emptied. */
    ghost predicate Rehashing()
      reads this, cache, dirtyFlag, bucketIds, replacer
    {
      && Valid() && fetchBuckets == [] && |host| == THREADS + HALF
      && State().floor == floor && State().end == geo.nextStart + geo.addr * 2
      && Placed(State(), HomesIn(geo, hashes))
    }

    /** Some entry of x has two full targets. */
    ghost predicate TargetsFull(x: LevelBucket)
      reads this, cache, dirtyFlag, bucketIds, replacer
    {
      exists e :: e in Entries(x) && BothFull(e.key)
    }

    ghost predicate BothFull(key: FixedKey)
      reads this, cache, dirtyFlag, bucketIds, replacer
    {
      IsFull(Look(State(), Targets(geo, hashes, key).0)) && IsFull(Look(State(), Targets(geo, hashes, key).1))
    }

    /** Rehashes one entry into the emptier of its two targets. Unless `evaluated`, the insert itself is compiled
        out. */
    method RehashEntry(e: Entry, evaluated: bool) returns (ok: bool)
      requires Rehashing()
      modifies `host, `bucketTable, `freeList, `constructed, `fetchBuckets, `fetchFrames, `log, cache, dirtyFlag, bucketIds, replacer
      ensures ok ==> Rehashing()
      ensures ok && evaluated ==> ContentsFrom(State(), floor + 1) == old(ContentsFrom(State(), floor + 1)) + multiset{e}
      ensures !evaluated ==> ok && SameContent(old(State()), State()) && NoNewDirt(old(State()), State())
      ensures ok ==> State().lists == old(var (t0, t1) := Targets(geo, hashes, e.key); Acquire(Acquire(State().lists, t0), t1))
      ensures !ok ==> BothFull(e.key)
      ensures ok ==> forall b :: b in State().table ==> b in old(State()).table || b >= geo.nextStart
      ensures evaluated ==> Course(if ok then Expanded else InsertFailed, Now()) == EntryRehashed(old(Now()), geo, hashes, e)
    {
      hide Valid, State, SameContent, Placed, HomesIn, Targets, Contents, Entries, Look, OnlyChanged, HoldsOneMore, IsFull,
        Kept, Recent, Acquire, ContentsFrom, NoNewDirt, BothFetched, Inserting, Emptier;
      ghost var m0 := State();
      Geometric();
      TargetsLive(m0, geo, hashes, e.key);
      var (t0, t1) := Targets(geo, hashes, e.key);
      NoneInFlight();
      NothingKept(m0);
      ghost var at, held, m;
      if !evaluated {
        held := FetchTwo(t0, t1, {}, {}, 0);
        StillRehashing(m0);
        return true;
      }
      ok, at, held, m := TryInsertInto2Buckets(t0, t1, e, {}, {}, 0);
      if ok {
        ChangedBounds(m0, State(), at);
        EntryAdded(m0, State(), at, e, HomesIn(geo, hashes), floor + 1);
      } else {
        SameAt(m0, State(), t0);
        SameAt(m0, State(), t1);
      }
    }

    lemma Geometric()
      requires Valid()
      ensures ValidGeometry(geo) && geo.blStart <= floor <= geo.tlStart < geo.nextStart
      ensures 0 <= geo.blStart && geo.nextStart == geo.tlStart + geo.addr && geo.addr >= 4
    {
      hide Sound, Fresh, HostShape;
      GeometryFacts(geo);
    }

    /** The entries in the first n slots of x have been rehashed since the state s0. */
    ghost predicate SlotsDone(s0: Stage, x: LevelBucket, n: nat, evaluated: bool)
      requires n <= ASSOC_NUM
      reads this, cache, dirtyFlag, bucketIds, replacer
    {
      && Rehashing()
      && (if evaluated then
            && ContentsFrom(State(), floor + 1) == ContentsFrom(s0.m, floor + 1) + SumOf(SlotEntry(x), 0, n)
            && Course(Expanded, Now()) == SlotsRehashed(s0, geo, hashes, x, n)
          else SameContent(s0.m, State()) && NoNewDirt(s0.m, State()))
      && (forall b :: b in State().table ==> b in s0.m.table || b >= geo.nextStart)
      && State().lists == AcquireAll(s0.m.lists, SplitAccesses(x, geo, hashes, n))
    }

    /** One more slot. */
    method RehashSlot(x: LevelBucket, slot: nat, evaluated: bool, ghost s0: Stage) returns (ok: bool)
      requires slot < ASSOC_NUM && SlotsDone(s0, x, slot, evaluated)
      modifies `host, `bucketTable, `freeList, `constructed, `fetchBuckets, `fetchFrames, `log, cache, dirtyFlag, bucketIds, replacer
      ensures ok ==> SlotsDone(s0, x, slot + 1, evaluated)
      ensures !ok ==> evaluated && TargetsFull(x) && Course(InsertFailed, Now()) == SlotsRehashed(s0, geo, hashes, x, slot + 1)
    {
      hide Valid, State, Rehashing, Targets, Look, IsFull, Acquire, AcquireAll, ContentsFrom, SplitAccesses, SlotEntry, SumOf,
        SameContent, NoNewDirt, SlotsRehashed, EntryRehashed;
      ok := true;
      SplitStep(x, geo, hashes, slot, ContentsFrom(s0.m, floor + 1));
      SlotsStep(s0, geo, hashes, x, slot);
      if x.token[slot] {
        ghost var m := State();
        AcquireTwo(s0.m.lists, SplitAccesses(x, geo, hashes, slot), Targets(geo, hashes, x.slots[slot].key));
        ok := RehashEntry(x.slots[slot], evaluated);
        if !ok {
          SlotIsEntry(x, slot);
        } else if !evaluated {
          SameTrans(s0.m, m, State());
          NoNewDirtTrans(s0.m, m, State());
        }
      }
    }

    /** The entries copied out of the bucket at the floor are rehashed one by one. Between the slots any frame
        may be taken, including the one the bucket was in. */
    method RehashSlots(x: LevelBucket, evaluated: bool) returns (ok: bool)
      requires Rehashing()
      modifies `host, `bucketTable, `freeList, `constructed, `fetchBuckets, `fetchFrames, `log, cache, dirtyFlag, bucketIds, replacer
      ensures ok ==> Rehashing()
      ensures ok && evaluated ==> ContentsFrom(State(), floor + 1) == old(ContentsFrom(State(), floor + 1)) + Entries(x)
      ensures !evaluated ==> ok && SameContent(old(State()), State()) && NoNewDirt(old(State()), State())
      ensures ok ==> State().lists == AcquireAll(old(State()).lists, SplitAccesses(x, geo, hashes, ASSOC_NUM))
      ensures !ok ==> TargetsFull(x)
      ensures ok ==> forall b :: b in State().table ==> b in old(State()).table || b >= geo.nextStart
      ensures evaluated ==> Course(if ok then Expanded else InsertFailed, Now()) == SlotsRehashed(old(Now()), geo, hashes, x, ASSOC_NUM)
    {
      hide Rehashing, State, SlotsDone, TargetsFull, SlotsRehashed, Entries, ContentsFrom, SplitAccesses, AcquireAll, SameContent, NoNewDirt;
      ghost var s0 := Now();
      SlotsBegin(x, evaluated);
      for slot := 0 to ASSOC_NUM
        invariant SlotsDone(s0, x, slot, evaluated)
      {
        ok := RehashSlot(x, slot, evaluated, s0);
        if !ok {
          SlotsFail(s0, geo, hashes, x, slot + 1, ASSOC_NUM);
          return;
        }
      }
      ok := true;
      SlotsEnd(s0, x, evaluated);
    }

    lemma SlotsBegin(x: LevelBucket, evaluated: bool)
      requires Rehashing()
      ensures SlotsDone(Now(), x, 0, evaluated)
    {
      hide Rehashing, State, NoNewDirt, SameContent, SlotsRehashed, ContentsFrom, SplitAccesses, AcquireAll, SumOf;
      SplitZero(State().lists, x, geo, hashes, ContentsFrom(State(), floor + 1));
      SlotsNone(Now(), geo, hashes, x);
      SameRefl(State());
      NoDirtYet();
    }

    lemma SlotsEnd(s0: Stage, x: LevelBucket, evaluated: bool)
      requires SlotsDone(s0, x, ASSOC_NUM, evaluated)
      ensures Rehashing() && State().lists == AcquireAll(s0.m.lists, SplitAccesses(x, geo, hashes, ASSOC_NUM))
      ensures evaluated ==> ContentsFrom(State(), floor + 1) == ContentsFrom(s0.m, floor + 1) + Entries(x)
      ensures evaluated ==> Course(Expanded, Now()) == SlotsRehashed(s0, geo, hashes, x, ASSOC_NUM)
      ensures !evaluated ==> SameContent(s0.m, State()) && NoNewDirt(s0.m, State())
      ensures forall b :: b in State().table ==> b in s0.m.table || b >= geo.nextStart
    {
      hide Rehashing, State, NoNewDirt, SameContent, SlotsRehashed, ContentsFrom, SplitAccesses, AcquireAll, SumOf;
    }

    lemma NoDirtYet()
      requires Rehashing()
      ensures NoNewDirt(State(), State())
    {
    }

    /** The frame is dirty and differs from the host memory of the bucket named for it. */
    method IsNeeded(frame: int) returns (needed: bool)
      requires Rehashing() && IsFrame(frame)
      ensures Shape(State())
      ensures needed <==> State().dirty[frame] && State().frames[frame] != HostOf(State(), State().lists.ids[frame])
    {
      hide Placed, Fresh, Logged, InFlight;
      if !dirtyFlag[frame] {
        return false;
      }
      var bucket := bucketIds[frame];
      DirtyIsLive(frame);
      ClientBucketExact(geo, |host|, bucket);
      var (client, offset) := ClientBucket(geo, bucket);
      assert host[client][offset / BUCKET_BYTES] == HostAt(geo, host, bucket) == HostView(geo, host)[bucket];
      return cache[frame] != host[client][offset / BUCKET_BYTES];
    }

    lemma DirtyIsLive(frame: int)
      requires Rehashing() && IsFrame(frame) && State().dirty[frame]
      ensures Live(State(), State().lists.ids[frame]) && geo.blStart <= State().lists.ids[frame] < LiveEnd(geo, |host|)
    {
      hide Placed, Fresh, Logged, InFlight, HostView;
      assert FrameSound(State(), frame);
    }

    /** Clears the dirty mark of the frame the bucket was in; the bucket is dead. The cache is intact unless the
        mark was another bucket's and needed. */
    method FinishSplit(frame: int, bucket: int) returns (intact: bool)
      requires Rehashing() && bucket == floor < geo.tlStart && IsFrame(frame)
      requires State().lists.ids[frame] == bucket || forall k :: IsFrame(k) ==> State().lists.ids[k] != bucket
      modifies `floor, dirtyFlag
      ensures Shape(old(State())) && (intact <==> !LosesMark(old(State()), frame))
      ensures State() == Retired(old(State()), frame) && floor == bucket + 1
      ensures intact ==> Rehashing()
      ensures Contents(State()) == old(ContentsFrom(State(), bucket + 1))
    {
      hide Sound, HostView, Fresh, Placed, HomesIn, Contents, ContentsFrom, ValidGeometry, HostShape, Shape;
      ghost var m := State();
      var needed := IsNeeded(frame);
      intact := bucketIds[frame] == bucket || !needed;
      dirtyFlag[frame] := false;
      floor := floor + 1;
      assert dirtyFlag[..] == Put(m.dirty, frame, false);
      RetireContents(m, frame, HomesIn(geo, hashes));
      if intact {
        SoundRetired(m, frame, base, log);
        FreshSame(m, Retired(m, frame), geo.nextStart, constructed);
      }
    }

    lemma SplitStart(bucket: int, x: LevelBucket, f: int)
      requires Rehashing() && bucket == floor < geo.tlStart && bucket in State().table
      requires x == Look(State(), bucket) && f == State().table[bucket]
      ensures Live(State(), bucket) && IsFrame(f) && Contents(State()) == Entries(x) + ContentsFrom(State(), bucket + 1)
      ensures |State().lists.ids| == CACHE_SIZE && State().lists.ids[f] == bucket
      ensures var s := AcquireAll(State().lists, SplitAccesses(x, geo, hashes, ASSOC_NUM));
        && |s.ids| == CACHE_SIZE && (s.ids[f] == bucket <==> Survives(State().lists, f, SplitAccesses(x, geo, hashes, ASSOC_NUM)))
        && (s.ids[f] == bucket || forall k :: IsFrame(k) ==> s.ids[k] != bucket)
    {
      hide Survives, SplitAccesses, AcquireAll, Entries, Fresh, Placed, HostView, Logged, InFlight;
      Geometric();
      ContentsFirst(State());
      SplitSurvivesExactly(State(), geo, hashes, x, f, bucket);
      SplitLeavesNoName(State(), geo, hashes, x, f, bucket);
    }

    /** Splits the bucket at the floor into the next level. If all inserts succeed, the bucket is dead and the
        contents are unchanged; the mark of another bucket is lost exactly when the frame holds one by then, dirty
        and different from host memory. Compiled out, the inserts cannot fail and no mark is lost. */
    method SplitBucket(bucket: int, evaluated: bool) returns (outcome: ExpandOutcome, ghost before: Mem)
      requires Rehashing() && bucket == floor < geo.tlStart && bucket in State().table
      modifies `floor, `host, `bucketTable, `freeList, `constructed, `fetchBuckets, `fetchFrames, `log, cache, dirtyFlag, bucketIds, replacer
      ensures outcome.InsertFailed? ==> TargetsFull(old(Look(State(), bucket)))
      ensures var x, f := old(Look(State(), bucket)), old(State()).table[bucket];
        !outcome.InsertFailed? ==>
          && IsFrame(f) && Coherent(before) && State() == Retired(before, f)
          && (before.lists.ids[f] == bucket <==> Survives(old(State()).lists, f, SplitAccesses(x, geo, hashes, ASSOC_NUM)))
          && before.floor == bucket && (outcome.MarkLost? <==> LosesMark(before, f))
      ensures !outcome.InsertFailed? ==> floor == bucket + 1
      ensures !outcome.InsertFailed? && evaluated ==> Contents(State()) == old(Contents(State()))
      ensures !evaluated ==> outcome.Expanded? && SameFrom(old(State()), State(), bucket + 1)
      ensures outcome.Expanded? ==> Rehashing()
      ensures outcome.Expanded? ==> forall b :: b in State().table ==> b in old(State()).table || b >= geo.nextStart
      ensures evaluated ==> Course(outcome, Now()) == BucketSplit(old(Now()), geo, hashes)
    {
      hide Valid, State, Rehashing, Contents, Entries, Look, ContentsFrom, SplitAccesses, Survives, AcquireAll, TargetsFull,
        SameContent, SameFrom, NoNewDirt, Coherent, Shape, LosesMark, HostOf, SlotsRehashed;
      ghost var m0 := State();
      AtFloor();
      var f, x := ReadForSplit(bucket);
      SplitStart(bucket, x, f);
      var ok := RehashSlots(x, evaluated);
      before := State();
      if !ok {
        return InsertFailed, before;
      }
      AtFloor();
      var intact := FinishSplit(f, bucket);
      outcome := if intact then Expanded else MarkLost;
      if !evaluated {
        RetiredSameFrom(m0, before, f);
        NothingToLose(m0, before, f);
      }
    }

    lemma AtFloor()
      requires Rehashing()
      ensures State().floor == floor && Coherent(State())
    {
      hide Fresh, Logged, InFlight, Coherent, Placed;
    }

    method ReadForSplit(bucket: int) returns (frame: int, x: LevelBucket)
      requires Rehashing() && bucket in State().table
      ensures x == Look(State(), bucket) && frame == State().table[bucket]
    {
      hide Valid, State, Look;
      var r := Lookup(bucket);
      frame := r.value;
      x := ReadFrame(bucket);
    }

    method AddSlices(ghost memory: Memory)
      requires Well() && |host| == THREADS
      modifies `constructed, `host, `base, `log
      ensures Well() && |host| == THREADS + HALF && |constructed| == geo.addr * 2 && base == memory && log == []
      ensures State() == Extended(old(State()), geo.nextStart + geo.addr * 2)
      ensures constructed == seq(geo.addr * 2, _ => false)
    {
      hide HostView, HostShape, ValidGeometry, LiveEnd, ZeroMemory, NewSlices;
      constructed := seq(geo.addr * 2, _ => false);
      ViewGrows(geo, host);
      host := host + NewSlices(geo);
      base, log := memory, [];
    }

    /** The host has added the zeroed next level and its slices have been imported. */
    method BeginExpand()
      requires Ready()
      modifies `constructed, `host, `base, `log
      ensures Rehashing() && floor == geo.blStart && Contents(State()) == old(Contents(State()))
      ensures State() == Extended(old(State()), geo.nextStart + geo.addr * 2)
      ensures constructed == seq(geo.addr * 2, _ => false)
    {
      hide State, Sound, Fresh, Placed, HomesIn, Contents, Coherent, Quiet, Well, Extended;
      ghost var m, end' := State(), geo.nextStart + geo.addr * 2;
      Geometric();
      NoneInFlight();
      ReadyCoherent();
      AddSlices(MemoryOf(Extended(m, end')));
      ExtendKeeps(m, end', HomesIn(geo, hashes), constructed);
      EmptyLog(Extended(m, end'));
      ExtendedBounds(m, end');
    }

    lemma ReadyCoherent()
      requires Ready()
      ensures Coherent(State()) && Well() && |host| == THREADS && State().floor == floor == geo.blStart && State().end == geo.nextStart
    {
      hide Fresh, Logged, InFlight, Coherent, Placed;
      Geometric();
    }

    method DropSlices(ghost memory: Memory)
      requires Well() && |host| == THREADS + HALF && floor == geo.tlStart
      modifies `geo, `host, `base, `log
      ensures Well() && |host| == THREADS && geo == Grown(old(geo)) && base == memory && log == []
      ensures State() == Committed(old(State()))
    {
      hide HostView, HostShape, ValidGeometry;
      ViewShifted(geo, host);
      GeometryFacts(Grown(geo));
      host := host[HALF..];
      geo := Grown(geo);
      base, log := memory, [];
    }

    /** The parameters grow and the first half of the clients is erased. */
    method CommitExpand()
      requires Rehashing() && floor == geo.tlStart
      modifies `geo, `host, `base, `log
      ensures Ready() && geo == Grown(old(geo)) && Contents(State()) == old(Contents(State()))
    {
      hide State, Sound, Fresh, Placed, HomesIn, ValidGeometry, Coherent, Quiet, Settled, ContentsFrom, SameContent, Well, Committed;
      ghost var m := State();
      ghost var m' := Committed(m);
      Geometric();
      NoneInFlight();
      RehashingCoherent();
      CommitKeeps(m);
      SameBounds(m, m');
      SamePlaced(m, m', HomesIn(geo, hashes));
      SameContents(m, m', m.floor);
      PlacedGrown(m', geo, hashes);
      FreshBeyond(m', Grown(geo).nextStart, constructed);
      DropSlices(MemoryOf(m'));
      EmptyLog(m');
    }

    lemma RehashingCoherent()
      requires Rehashing() && floor == geo.tlStart
      ensures Coherent(State()) && Well() && Grown(geo).nextStart >= State().end >= State().floor
      ensures forall b :: b in Committed(State()).host ==> b < State().end
    {
      hide Fresh, Logged, InFlight, Coherent, Placed, HostAt;
      Geometric();
    }

    lemma StillRehashing(m: Mem)
      requires Valid() && fetchBuckets == [] && |host| == THREADS + HALF && SameContent(m, State())
      requires m.floor == floor && m.end == geo.nextStart + geo.addr * 2 && Placed(m, HomesIn(geo, hashes))
      ensures Rehashing() && Contents(State()) == Contents(m)
    {
      hide Valid, State, Placed, HomesIn, ContentsFrom, SameContent;
      SameBounds(m, State());
      SamePlaced(m, State(), HomesIn(geo, hashes));
      SameContents(m, State(), m.floor);
    }

    /** The bucket at the floor is brought into the cache if it is not there; if it is, an access is recorded
        only when touchFirst is set. */
    method BringIn(bucket: int)
      requires Rehashing() && bucket == floor < geo.tlStart
      modifies `host, `bucketTable, `freeList, `fetchBuckets, `fetchFrames, `log, cache, dirtyFlag, bucketIds, replacer
      ensures Rehashing() && Contents(State()) == old(Contents(State())) && bucket in State().table
      ensures touchFirst || bucket !in old(State()).table ==>
        State().lists.lru != [] && State().lists.lru[0] == State().table[bucket]
      ensures forall b :: b in State().table ==> b in old(State()).table || b == bucket
      ensures SameContent(old(State()), State())
      ensures Now() == BroughtIn(old(Now()), touchFirst)
    {
      hide Valid, State, SameContent, Placed, HomesIn, Recent, FrameSet, Acquire, Contents, Stays;
      Geometric();
      ghost var m := State();
      NoneInFlight();
      SameRefl(m);
      var r := Lookup(bucket);
      if r.None? {
        NotRegistered(bucket);
        var frame := FetchBucket(bucket, {}, 0);
        ghost var m1 := State();
        AwaitFetch(bucket, frame);
        SameTrans(m, m1, State());
      } else if touchFirst {
        RecordAccess(bucket, {}, 0);
      }
      StillRehashing(m);
    }

    lemma AtFront(bucket: int, x: LevelBucket)
      requires Rehashing() && bucket in State().table && State().lists.lru != [] && State().lists.lru[0] == State().table[bucket]
      ensures Survives(State().lists, State().table[bucket], SplitAccesses(x, geo, hashes, ASSOC_NUM))
    {
      hide Fresh, Logged, InFlight, Placed, Survives, SplitAccesses, Coherent;
      Geometric();
      FrontSurvivesSplit(State(), geo, hashes, x, State().table[bucket]);
    }

    lemma FullInContents(bucket: int, x: LevelBucket, m: Mem)
      requires TargetsFull(x) && Live(m, bucket) && x == Look(m, bucket)
      ensures exists e :: e in Contents(m) && BothFull(e.key)
    {
      hide BothFull, Entries, Contents, Look;
      var e :| e in Entries(x) && BothFull(e.key);
      InContents(m, bucket, e);
    }

    /** In state m the accesses of a split would take the frame of the bucket being split. */
    ghost predicate Overrun(m: Mem, bucket: int)
      reads this
    {
      bucket in m.table && !Survives(m.lists, m.table[bucket], SplitAccesses(Look(m, bucket), geo, hashes, ASSOC_NUM))
    }

    /** The mark of frame f has just been lost: another bucket is in it, which from now on is not written back. */
    ghost predicate MarkLostIn(m: Mem, f: int)
      reads this, cache, dirtyFlag, bucketIds, replacer
    {
      IsFrame(f) && Coherent(m) && LosesMark(m, f) && State() == Retired(m, f)
    }

    /** Why an expansion of a store with contents c has ended early. */
    ghost predicate Reason(why: ExpandOutcome, c: multiset<Entry>)
      reads this, cache, dirtyFlag, bucketIds, replacer
    {
      match why
      case Expanded => false
      case InsertFailed => exists e :: e in c && BothFull(e.key)
      case MarkLost => !touchFirst && Contents(State()) == c && exists m, f :: MarkLostIn(m, f)
    }

    /** Every bucket of the bottom level is split in turn. */
    method RehashAll(evaluated: bool) returns (outcome: ExpandOutcome, ghost at: Mem, ghost where: int)
      requires Rehashing() && floor == geo.blStart
      modifies `floor, `host, `bucketTable, `freeList, `constructed, `fetchBuckets, `fetchFrames, `log, cache, dirtyFlag, bucketIds, replacer
      ensures outcome.Expanded? ==> Rehashing() && floor == geo.tlStart
      ensures outcome.Expanded? && evaluated ==> Contents(State()) == old(Contents(State()))
      ensures !evaluated ==> outcome.Expanded? && Contents(State()) == old(ContentsFrom(State(), geo.tlStart))
      ensures !outcome.Expanded? ==> Reason(outcome, old(Contents(State())))
      ensures outcome.MarkLost? ==> Overrun(at, where) && Contents(at) == old(Contents(State()))
      ensures outcome.MarkLost? ==> geo.blStart <= where < geo.tlStart && where in old(State()).table
      ensures evaluated ==> Course(outcome, Now()) == AllSplit(old(Now()), geo, hashes, touchFirst, geo.blStart)
    {
      hide Valid, State, Placed, HomesIn, Look, Survives, SplitAccesses, TargetsFull, BothFull, ContentsFrom,
        SameContent, SameFrom, Shape, LosesMark, Retired, AllSplit, BucketSplit, BroughtIn, WellListed, IdsBounded, TableMatches, FrameSound;
      Geometric();
      at, where := State(), floor;
      ghost var m0, s0, table := at, Now(), at.table;
      ghost var c := Contents(State());
      outcome := Expanded;
      SameFromRefl(m0, floor);
      for b := geo.blStart to geo.tlStart
        invariant forall c :: b <= c < geo.tlStart && c in State().table ==> c in table
        invariant outcome.Expanded? && Rehashing() && floor == b
        invariant evaluated ==> AllSplit(s0, geo, hashes, touchFirst, geo.blStart) == AllSplit(Now(), geo, hashes, touchFirst, b)
        invariant evaluated ==> Contents(State()) == c
        invariant !evaluated ==> SameFrom(m0, State(), b)
      {
        ghost var cached, m := b in State().table, State();
        AllSplitStep(Now(), geo, hashes, touchFirst, b);
        BringIn(b);
        at, where := State(), b;
        ghost var x := Look(at, b);
        if touchFirst || !cached { AtFront(b, x); }
        ghost var before;
        outcome, before := SplitBucket(b, evaluated);
        if !outcome.Expanded? {
          if outcome.InsertFailed? {
            FullInContents(b, x, at);
          } else {
            OtherBucket(before, at.table[b], b);
            assert MarkLostIn(before, at.table[b]);
          }
          return;
        }
        if !evaluated { SameFromSteps(m0, m, at, State(), b); }
      }
      AllSplitDone(Now(), geo, hashes, touchFirst);
      if !evaluated { SameFromContents(m0, State(), geo.tlStart); }
    }

    lemma OtherBucket(m: Mem, f: int, bucket: int)
      requires IsFrame(f) && Shape(m) && LosesMark(m, f) && m.floor == bucket
      ensures m.lists.ids[f] != bucket
    {
    }

    /** The table grows by one level. Contents are unchanged unless an entry finds both its targets full or,
        without touchFirst, the mark of a bucket is lost that took the frame of one that had been cached before.
        With its inserts compiled out, an expansion always completes and loses exactly the bottom level. */
    method Expand(evaluated: bool) returns (outcome: ExpandOutcome, ghost at: Mem, ghost where: int)
      requires Ready()
      modifies `geo, `floor, `host, `bucketTable, `freeList, `constructed, `fetchBuckets, `fetchFrames, `base, `log,
        cache, dirtyFlag, bucketIds, replacer
      ensures outcome.Expanded? ==> Ready() && geo == Grown(old(geo))
      ensures outcome.Expanded? && evaluated ==> Contents(State()) == old(Contents(State()))
      ensures !evaluated ==> outcome.Expanded?
      ensures !evaluated ==> old(Contents(State())) == old(SumOf(EntriesIn(State()), geo.blStart, geo.tlStart)) + Contents(State())
      ensures !outcome.Expanded? ==> geo == old(geo) && Reason(outcome, old(Contents(State())))
      ensures outcome.MarkLost? ==> Overrun(at, where) && Contents(at) == old(Contents(State()))
      ensures outcome.MarkLost? ==> geo.blStart <= where < geo.tlStart && where in old(State()).table
      ensures evaluated ==> outcome == Rehashed(old(State()), old(geo), hashes, touchFirst).outcome
      ensures !outcome.Expanded? ==> Now() == Rehashed(old(State()), old(geo), hashes, touchFirst).stage
    {
      hide Ready, Rehashing, State, Contents, ContentsFrom, BothFull, Overrun, Reason, Extended, EntriesIn, SumOf, AllSplit;
      ghost var m := State();
      SettledNow();
      BeginExpand();
      ExtendedBounds(m, geo.nextStart + geo.addr * 2);
      outcome, at, where := RehashAll(evaluated);
      if outcome.Expanded? {
        CommitExpand();
      }
    }

    lemma SettledNow()
      requires Ready()
      ensures Contents(State()) ==
        SumOf(EntriesIn(State()), geo.blStart, geo.tlStart) + ContentsFrom(Extended(State(), geo.nextStart + geo.addr * 2), geo.tlStart)
    {
      hide State, Contents, ContentsFrom, Well, Placed, Coherent, SumOf, EntriesIn, Extended;
      ReadyCoherent();
      BottomAndRest(State(), geo);
    }

    // ---------- Requests ----------

    /** The load factor has reached 0.95. It counts inserts; deletes are never subtracted. */
    predicate Crowded()
      reads this
    {
      100 * size >= 95 * (ASSOC_NUM * (geo.bl + geo.addr))
    }

    /** Expands first when crowded; then the entry is added unless it is stuck in the state `at`, which holds
        what the store held before. */
    method ProcessInsert(e: Entry) returns (outcome: InsertOutcome, ghost at: Mem)
      requires Ready()
      modifies `geo, `floor, `host, `bucketTable, `freeList, `constructed, `fetchBuckets, `fetchFrames, `base, `log,
        cache, dirtyFlag, bucketIds, replacer
      ensures !outcome.Stopped? ==> Ready() && geo == if old(Crowded()) then Grown(old(geo)) else old(geo)
      ensures !outcome.Stopped? ==> (geo != old(geo) <==> 20 * old(size) >= 19 * (4 * (old(geo).bl + old(geo).addr)))
      ensures outcome.Added? ==> Contents(State()) == old(Contents(State())) + multiset{e}
      ensures outcome.Refused? ==> Contents(State()) == old(Contents(State()))
      ensures !outcome.Stopped? ==> Settled(at, geo) && (outcome.Added? <==> !Stuck(at, geo, hashes, e.key)) && Contents(at) == old(Contents(State()))
      ensures !old(Crowded()) ==> at == old(State())
      ensures outcome.Stopped? ==> old(Crowded()) && geo == old(geo) && Reason(outcome.why, old(Contents(State())))
      ensures outcome == Stopped(MarkLost) ==> exists b :: old(geo).blStart <= b < old(geo).tlStart && b in old(State()).table
      ensures old(Crowded()) ==>
        var why := Rehashed(old(State()), old(geo), hashes, touchFirst).outcome; if why.Expanded? then !outcome.Stopped? else outcome == Stopped(why)
    {
      GrowsLevel(geo);
      hide Ready, State, Contents, Stuck, Grown, Overrun, BothFull, Reason, EntriesIn, Rehashed;
      at := State();
      if Crowded() {
        ghost var split, where;
        var r;
        r, split, where := Expand(true);
        at := State();
        if !r.Expanded? {
          return Stopped(r), at;
        }
      }
      SettledReady();
      var ok := InsertEntry(e);
      outcome := if ok then Added else Refused;
    }

    lemma GrowsLevel(g: Geometry)
      ensures Grown(g) != g
    {
    }

    lemma SettledReady()
      requires Ready()
      ensures Settled(State(), geo)
    {
      hide Valid, Placed, Settled;
    }

    /** Delete with the fetches it leaves behind awaited afterwards. */
    method DrainedDelete(key: FixedKey) returns (found: bool, leftBehind: bool, ghost gone: Entry)
      requires Ready()
      modifies `host, `bucketTable, `freeList, `fetchBuckets, `fetchFrames, `log, cache, dirtyFlag, bucketIds, replacer
      ensures Ready() && (found <==> HasKey(old(Contents(State())), key))
      ensures found ==> gone.key == key && old(Contents(State())) == Contents(State()) + multiset{gone}
      ensures !found ==> Contents(State()) == old(Contents(State()))
      ensures leftBehind <==> LeftBehind(old(State()), Candidates(geo, hashes, key), key) != []
    {
      hide Ready, Steady, State, Contents, HasKey, LeftBehind, Candidates, Quiet;
      var unawaited, frames;
      found, unawaited, frames, gone := ProcessDelete(key);
      leftBehind := unawaited != [];
      AwaitAll(unawaited, frames);
    }

    /** One request. Nothing has been answered unless `why` is Expanded. It is decided in the state before, or after
        the expansion for a crowded insert. */
    method Serve(q: Request) returns (a: Response, why: ExpandOutcome, leftBehind: bool, ghost moment: Moment)
      requires Ready()
      modifies `size, `geo, `floor, `host, `bucketTable, `freeList, `constructed, `fetchBuckets, `fetchFrames, `base, `log,
        cache, dirtyFlag, bucketIds, replacer
      ensures why.Expanded? ==> Ready() && Allowed(old(Contents(State())), q, a, Contents(State()))
      ensures why.Expanded? ==> size == old(size) + if a == Accepted(true) then 1 else 0
      ensures why.Expanded? ==> LoadStep(Load(old(size), old(geo)), q, a, Load(size, geo))
      ensures !why.Expanded? ==> q.Insert? && Full(Load(size, geo)) && Load(size, geo) == Load(old(size), old(geo)) && Reason(why, old(Contents(State())))
      ensures why.Expanded? ==> Decided(moment, hashes, old(Contents(State())), q, a) && (leftBehind <==> Leaves(moment, hashes, q))
      ensures !(q.Insert? && Full(Load(old(size), old(geo)))) ==> moment == Moment(old(State()), old(geo))
    {
      hide Valid, State, Contents, HasKey, Settled, Placed, LeftBehind, Candidates, Stuck, Reason;
      why, leftBehind, moment := Expanded, false, Moment(State(), geo);
      SettledReady();
      match q
      case Search(k) =>
        var r := ProcessSearch(k);
        a := Value(r);
      case Insert(e) =>
        ghost var at;
        var r;
        r, at := ProcessInsert(e);
        a := Accepted(r.Added?);
        moment := Moment(at, geo);
        if r.Refused? { StuckIsFull(at, geo, hashes, e.key); }
        if r.Stopped? {
          why := r.why;
          NoReason(old(Contents(State())));
        }
        if r.Added? {
          CountOne();
        }
      case Delete(k) =>
        ghost var gone;
        var found;
        found, leftBehind, gone := DrainedDelete(k);
        a := Deleted(found);
      case Update(_) => a := Ignored;
      case Start => a := Ignored;
      case End => a := Ignored;
    }

    lemma OnlyFullTargets(why: ExpandOutcome, c: multiset<Entry>)
      requires touchFirst && Reason(why, c)
      ensures why.InsertFailed?
    {
    }

    lemma NoReason(c: multiset<Entry>)
      ensures !Reason(Expanded, c)
    {
    }

    method CountOne()
      requires Ready()
      modifies `size
      ensures Ready() && State() == old(State()) && size == old(size) + 1
    {
      hide Sound, Fresh, Placed, HostView, Settled;
      size := size + 1;
    }

    /** Requests are served in order until END or an expansion that does not complete, for the reason given.
        Whatever the requests are, the answers are those of a multiset of entries. */
    method Run(requests: seq<Request>)
      returns (answers: seq<Response>, why: ExpandOutcome, leftBehind: bool, ghost history: seq<multiset<Entry>>, ghost moments: seq<Moment>, ghost loads: seq<Load>)
      requires Ready()
      modifies `size, `geo, `floor, `host, `bucketTable, `freeList, `constructed, `fetchBuckets, `fetchFrames, `base, `log,
        cache, dirtyFlag, bucketIds, replacer
      ensures Explains(history, requests, answers) && history[0] == old(Contents(State()))
      ensures Justifies(moments, hashes, history, requests, answers) && (leftBehind <==> SomeLeaves(moments, hashes, requests))
      ensures why.Expanded? ==> Ready() && Contents(State()) == history[|answers|]
      ensures Tracks(loads, requests, answers) && loads[0] == Load(old(size), old(geo)) && loads[|answers|] == Load(size, geo)
      ensures forall i :: 0 <= i < |answers| - 1 ==> !requests[i].End?
      ensures why.Expanded? ==> |answers| == |requests| || (answers != [] && requests[|answers| - 1].End?)
      ensures !why.Expanded? ==> |answers| < |requests| && requests[|answers|].Insert? && Full(loads[|answers|]) && Reason(why, history[|answers|])
    {
      hide Ready, State, Contents, Allowed, Explains, Reason, Decided, Leaves, LoadStep, Full;
      answers, why, leftBehind := [], Expanded, false;
      history, moments, loads := [Contents(State())], [], [Load(size, geo)];
      ExplainsNothing(history[0], requests);
      var i := 0;
      while i < |requests|
        invariant 0 <= i <= |requests| && i == |answers| && |history| == i + 1
        invariant why.Expanded? && Ready() && Explains(history, requests, answers)
        invariant Justifies(moments, hashes, history, requests, answers) && (leftBehind <==> SomeLeaves(moments, hashes, requests))
        invariant Tracks(loads, requests, answers) && loads[0] == Load(old(size), old(geo)) && loads[i] == Load(size, geo)
        invariant forall k :: 0 <= k < i ==> !requests[k].End?
        invariant history[0] == old(Contents(State())) && Contents(State()) == history[i]
      {
        var a, left;
        ghost var moment;
        a, why, left, moment := Serve(requests[i]);
        if !why.Expanded? {
          return;
        }
        leftBehind := leftBehind || left;
        ExplainsMore(history, requests, answers, a, Contents(State()));
        JustifiesMore(moments, hashes, history, requests, answers, moment, a, Contents(State()));
        TracksMore(loads, requests, answers, a, Load(size, geo));
        answers, history, moments, loads := answers + [a], history + [Contents(State())], moments + [moment], loads + [Load(size, geo)];
        i := i + 1;
        if requests[i - 1].End? {
          return;
        }
      }
    }
  }

  /** A whole session with a new store: its contents start empty, and the load stays within 0.95 and one insert. */
  method Session(level: nat, hashes: Hashes, touchFirst: bool, requests: seq<Request>)
    returns (answers: seq<Response>, why: ExpandOutcome, ghost history: seq<multiset<Entry>>, ghost loads: seq<Load>)
    requires level >= 3
    ensures Explains(history, requests, answers) && history[0] == multiset{}
    ensures Tracks(loads, requests, answers) && loads[0] == Load(0, InitialGeometry(level))
    ensures forall n :: 0 <= n < |loads| ==> Bounded(loads[n])
    ensures forall i :: 0 <= i < |answers| - 1 ==> !requests[i].End?
    ensures why.Expanded? ==> |answers| == |requests| || (answers != [] && requests[|answers| - 1].End?)
    ensures !why.Expanded? ==> |answers| < |requests| && requests[|answers|].Insert? && Full(loads[|answers|]) && (touchFirst ==> why.InsertFailed?)
  {
    hide Allowed, Tracks, Bounded, Full, Dpu.Valid, Dpu.Ready, Dpu.State, Dpu.Reason, Contents, Settled, Placed, Quiet, Justifies, SomeLeaves, InitialGeometry;
    var dpu := new Dpu(level, hashes, touchFirst);
    var leftBehind;
    ghost var moments;
    answers, why, leftBehind, history, moments, loads := dpu.Run(requests);
    if touchFirst && !why.Expanded? { dpu.OnlyFullTargets(why, history[|answers|]); }
    NewIsBounded(level);
    SameLengths(loads, requests, answers);
    forall n | 0 <= n < |loads| ensures Bounded(loads[n]) { LoadLaw(loads, history, requests, answers, n); }
  }

  lemma SameLengths(loads: seq<Load>, qs: seq<Request>, answers: seq<Response>)
    requires Tracks(loads, qs, answers)
    ensures |loads| == |answers| + 1
  {
  }

  lemma NewIsBounded(level: nat)
    requires level >= 3
    ensures Bounded(Load(0, InitialGeometry(level)))
  {
  }

  lemma ExplainsNothing(c: multiset<Entry>, qs: seq<Request>)
    ensures Explains([c], qs, [])
  {
  }
}
