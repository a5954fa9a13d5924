/**
 Fetches in flight: which frames await which buckets, and why neither they nor other recently used
 frames are taken for another bucket in the meantime.
 */
module Fetching {
  import opened Basics
  import opened LevelBuckets
  import opened LruReplacer
  import opened FrameLists
  import opened CachedStore
  import opened DmaSchedule

  ghost function FrameSet(fs: seq<int>): set<int> {
    set f | f in fs
  }

  /** Frames fs, and no others, are named for a bucket, bs respectively, without being registered. */
  ghost predicate InFlight(m: Mem, bs: seq<int>, fs: seq<int>) {
    && |bs| == |fs| && |m.lists.ids| == CACHE_SIZE && Distinct(bs)
    && (forall k :: 0 <= k < |bs| ==> IsFrame(fs[k]) && m.lists.ids[fs[k]] == bs[k] && Live(m, bs[k]) && bs[k] !in m.table)
    && (forall f :: IsFrame(f) && m.lists.ids[f] != -1 && m.lists.ids[f] !in m.table ==> f in fs)
  }

  /** A bucket is either registered, in flight or not cached. */
  lemma NotCached(m: Mem, bs: seq<int>, fs: seq<int>, b: int)
    requires Coherent(m) && InFlight(m, bs, fs) && b !in m.table && b !in bs && b != -1
    ensures Uncached(m, b)
  {
    assert forall k :: 0 <= k < |fs| ==> m.lists.ids[fs[k]] in bs;
  }

  /** Issuing one more fetch, with all frames in flight among the n most recently used. */
  lemma OccupyInFlight(m: Mem, bs: seq<int>, fs: seq<int>, b: int, x: LevelBucket, held: set<int>, n: nat)
    requires Coherent(m) && InFlight(m, bs, fs) && Live(m, b) && Uncached(m, b)
    requires FrameSet(fs) <= held && Recent(m.lists.lru, held, n) && n < CACHE_SIZE
    ensures var m', f := Occupied(m, b, x), Victim(m.lists);
      && InFlight(m', bs + [b], fs + [f])
      && f !in held && FrameSet(fs + [f]) <= held + {f} && Recent(m'.lists.lru, held + {f}, n + 1)
  {
    OccupyShape(m, b, x);
    TakenRecent(m.lists, b, held, n);
    var m', f, bs', fs' := Occupied(m, b, x), Victim(m.lists), bs + [b], fs + [Victim(m.lists)];
    assert b !in bs;
    forall k | 0 <= k < |bs'| ensures IsFrame(fs'[k]) && m'.lists.ids[fs'[k]] == bs'[k] && Live(m', bs'[k]) && bs'[k] !in m'.table {
      if k < |bs| {
        assert fs[k] in FrameSet(fs);
      } else {
        assert b !in m.table;
      }
    }
    forall h | IsFrame(h) && m'.lists.ids[h] != -1 && m'.lists.ids[h] !in m'.table ensures h in fs' {
      if h != f {
        assert m.lists.ids[h] != m.lists.ids[f];
      } else {
        assert fs'[|fs|] == f;
      }
    }
  }

  /** Awaiting the first outstanding fetch registers its bucket. */
  lemma RegisterInFlight(m: Mem, bs: seq<int>, fs: seq<int>)
    requires Coherent(m) && InFlight(m, bs, fs) && bs != []
    ensures InFlight(Registered(m, bs[0], fs[0]), bs[1..], fs[1..])
    ensures FrameSet(fs[1..]) <= FrameSet(fs)
  {
    var m' := Registered(m, bs[0], fs[0]);
    forall k | 0 <= k < |bs| - 1 ensures bs[1..][k] !in m'.table && fs[1..][k] == fs[k + 1] {
      assert bs[1..][k] == bs[k + 1] != bs[0];
    }
    forall f | IsFrame(f) && m'.lists.ids[f] != -1 && m'.lists.ids[f] !in m'.table ensures f in fs[1..] {
      var k :| 0 <= k < |fs| && fs[k] == f;
      assert k != 0;
      assert fs[1..][k - 1] == f;
    }
  }

  lemma SubWindow(l: seq<int>, held: set<int>, sub: set<int>, n: nat)
    requires Recent(l, held, n) && sub <= held
    ensures Recent(l, sub, n)
  {
  }

  // ---------- The DMA log ----------

  ghost function FetchesOf(bs: seq<int>, fs: seq<int>): seq<Dma>
    requires |bs| == |fs|
  {
    seq(|bs|, k requires 0 <= k < |bs| => Fetch(fs[k], bs[k]))
  }

  ghost function FrameMap(frames: seq<LevelBucket>): map<int, LevelBucket> {
    map f: int | 0 <= f < |frames| :: frames[f]
  }

  ghost function MemoryOf(m: Mem): Memory {
    Memory(FrameMap(m.frames), m.host)
  }

  lemma FrameMapPut(frames: seq<LevelBucket>, f: int, x: LevelBucket)
    requires 0 <= f < |frames|
    ensures FrameMap(Put(frames, f, x)) == FrameMap(frames)[f := x]
  {
  }

  /** The log is disciplined, leaves exactly the fetches in flight outstanding, and replays to the present memory. */
  ghost predicate Logged(m: Mem, bs: seq<int>, fs: seq<int>, base: Memory, log: seq<Event>) {
    && |bs| == |fs| && Disciplined(log) && Outstanding(log) == FetchesOf(bs, fs)
    && Sequential(base, log) == MemoryOf(m)
  }

  /** The write-back of frame f if it is dirty, awaited before anything else is issued. */
  ghost function FlushEvents(m: Mem, f: int): seq<Event> {
    if 0 <= f < |m.dirty| && m.dirty[f] then
      var r := Flush(f, IdAt(m, f));
      [Issue(r), Await(r)]
    else []
  }

  lemma {:induction false} DropLast(rs: seq<Dma>, r: Dma)
    requires r !in rs
    ensures Drop(rs + [r], r) == rs
  {
    if rs != [] {
      assert (rs + [r])[1..] == rs[1..] + [r];
      DropLast(rs[1..], r);
    }
  }

  lemma {:induction false} DropAbsent(rs: seq<Dma>, r: Dma)
    requires r !in rs
    ensures Drop(rs, r) == rs
  {
    if rs != [] {
      DropAbsent(rs[1..], r);
    }
  }

  /** Events about frame f and bucket b are clear of the fetches in flight. */
  lemma ClearOfFlight(m: Mem, bs: seq<int>, fs: seq<int>, f: int, b: int)
    requires InFlight(m, bs, fs) && f !in fs && b !in bs
    ensures forall p :: p in FetchesOf(bs, fs) ==> p.frame != f && p.bucket != b && p.Fetch?
  {
    forall p | p in FetchesOf(bs, fs) ensures p.frame != f && p.bucket != b && p.Fetch? {
      var k :| 0 <= k < |bs| && FetchesOf(bs, fs)[k] == p;
      assert fs[k] in fs && bs[k] in bs;
    }
  }

  lemma LogFlush(m: Mem, bs: seq<int>, fs: seq<int>, base: Memory, log: seq<Event>, f: int)
    requires Coherent(m) && InFlight(m, bs, fs) && Logged(m, bs, fs, base, log) && IsFrame(f) && f !in fs
    ensures var log' := log + FlushEvents(m, f);
      && Disciplined(log') && Outstanding(log') == FetchesOf(bs, fs)
      && Sequential(base, log') == Memory(FrameMap(m.frames), AfterFlush(m, f))
  {
    if m.dirty[f] {
      assert FrameSound(m, f);
      var b := m.lists.ids[f];
      assert b !in bs;
      ClearOfFlight(m, bs, fs, f, b);
      var r := Flush(f, b);
      Snoc(log, Issue(r));
      Snoc(log + [Issue(r)], Await(r));
      assert log + FlushEvents(m, f) == log + [Issue(r)] + [Await(r)];
      DropLast(FetchesOf(bs, fs), r);
    } else {
      assert log + FlushEvents(m, f) == log;
    }
  }

  ghost function FetchEvents(m: Mem, b: int): seq<Event> {
    FlushEvents(m, Victim(m.lists)) + [Issue(Fetch(Victim(m.lists), b))]
  }

  ghost function NewEvents(m: Mem): seq<Event> {
    FlushEvents(m, Victim(m.lists)) + [Poke(Victim(m.lists), EMPTY_BUCKET)]
  }

  /** The requests of a fetch are clear of everything in flight. */
  lemma LogFetch(m: Mem, bs: seq<int>, fs: seq<int>, base: Memory, log: seq<Event>, b: int)
    requires Coherent(m) && InFlight(m, bs, fs) && Logged(m, bs, fs, base, log)
    requires Live(m, b) && Uncached(m, b) && Victim(m.lists) !in fs
    ensures Logged(Fetched(m, b), bs + [b], fs + [Victim(m.lists)], base, log + FetchEvents(m, b))
  {
    var f := Victim(m.lists);
    OccupyShape(m, b, EMPTY_BUCKET);
    LogFlush(m, bs, fs, base, log, f);
    assert b !in bs;
    ClearOfFlight(m, bs, fs, f, b);
    var log1, e := log + FlushEvents(m, f), Issue(Fetch(f, b));
    Snoc(log1, e);
    assert log + FetchEvents(m, b) == log1 + [e];
    assert FetchesOf(bs + [b], fs + [f]) == FetchesOf(bs, fs) + [Fetch(f, b)];
    assert b in AfterFlush(m, f);
    FrameMapPut(m.frames, f, AfterFlush(m, f)[b]);
  }

  lemma LogNew(m: Mem, bs: seq<int>, fs: seq<int>, base: Memory, log: seq<Event>, b: int)
    requires Coherent(m) && InFlight(m, bs, fs) && Logged(m, bs, fs, base, log)
    requires Live(m, b) && Uncached(m, b) && Victim(m.lists) !in fs
    ensures Logged(Renewed(m, b), bs, fs, base, log + NewEvents(m))
  {
    var f := Victim(m.lists);
    OccupyShape(m, b, EMPTY_BUCKET);
    LogFlush(m, bs, fs, base, log, f);
    assert b !in bs;
    ClearOfFlight(m, bs, fs, f, b);
    var log1, e := log + FlushEvents(m, f), Poke(f, EMPTY_BUCKET);
    Snoc(log1, e);
    assert log + NewEvents(m) == log1 + [e];
    FrameMapPut(m.frames, f, EMPTY_BUCKET);
  }

  lemma LogAwait(m: Mem, bs: seq<int>, fs: seq<int>, base: Memory, log: seq<Event>)
    requires InFlight(m, bs, fs) && Logged(m, bs, fs, base, log) && bs != []
    ensures Logged(Registered(m, bs[0], fs[0]), bs[1..], fs[1..], base, log + [Await(Fetch(fs[0], bs[0]))])
  {
    var out, r := FetchesOf(bs, fs), Fetch(fs[0], bs[0]);
    Snoc(log, Await(r));
    assert out == [r] + FetchesOf(bs[1..], fs[1..]);
    forall k | 0 <= k < |bs| - 1 ensures FetchesOf(bs[1..], fs[1..])[k] != r { assert bs[k + 1] != bs[0]; }
    assert out[1..] == FetchesOf(bs[1..], fs[1..]);
    DropAbsent(out[1..], r);
  }

  lemma LogStore(m: Mem, bs: seq<int>, fs: seq<int>, base: Memory, log: seq<Event>, f: int, x: LevelBucket)
    requires InFlight(m, bs, fs) && Logged(m, bs, fs, base, log) && 0 <= f < |m.frames| && f !in fs
    ensures Logged(Stored(m, f, x), bs, fs, base, log + [Poke(f, x)])
  {
    Snoc(log, Poke(f, x));
    forall p | p in FetchesOf(bs, fs) ensures p.frame != f {
      var k :| 0 <= k < |bs| && FetchesOf(bs, fs)[k] == p;
      assert fs[k] in fs;
    }
    FrameMapPut(m.frames, f, x);
  }

  // ---------- Frames that are kept ----------

  /** Buckets registered in frames of `held` stay registered there. */
  ghost predicate Stays(m: Mem, m': Mem, held: set<int>) {
    forall b :: b in m.table && m.table[b] in held ==> b in m'.table && m'.table[b] == m.table[b]
  }

  lemma OccupyStays(m: Mem, bucket: int, x: LevelBucket, held: set<int>)
    requires Coherent(m) && Victim(m.lists) !in held && IsFrame(Victim(m.lists))
    ensures Stays(m, Occupied(m, bucket, x), held)
  {
    forall b | b in m.table && m.table[b] in held ensures b != IdAt(m, Victim(m.lists)) {
      assert m.lists.ids[m.table[b]] == b;
    }
  }

  /** The buckets bs are registered, in frames of `held`. */
  ghost predicate Kept(m: Mem, bs: set<int>, held: set<int>) {
    forall b :: b in bs ==> b in m.table && m.table[b] in held
  }

  lemma KeptStays(m: Mem, m': Mem, bs: set<int>, held: set<int>, held': set<int>)
    requires Kept(m, bs, held) && Stays(m, m', held) && held <= held'
    ensures Kept(m', bs, held')
  {
  }

  lemma KeptRegistered(m: Mem, b: int, f: int, bs: set<int>, held: set<int>)
    requires Kept(m, bs, held) && f in held
    ensures Kept(Registered(m, b, f), bs + {b}, held)
  {
  }

  lemma KeptMore(m: Mem, b: int, bs: set<int>, held: set<int>)
    requires Kept(m, bs, held) && b in m.table && m.table[b] in held
    ensures Kept(m, bs + {b}, held)
  {
  }

  lemma NothingKept(m: Mem)
    ensures Kept(m, {}, {})
  {
  }

  lemma KeptOnly(m: Mem, m': Mem, bs: set<int>, held: set<int>)
    requires Kept(m, bs, held) && Stays(m, m', held)
    ensures Kept(m', bs, held)
  {
  }

  lemma KeptAlso(m: Mem, b: int, f: int, bs: set<int>, held: set<int>)
    requires Kept(m, bs, held) && b !in m.table
    ensures Kept(Registered(m, b, f), bs, held)
  {
  }

  lemma KeptIn(m: Mem, b: int, bs: set<int>, held: set<int>)
    requires Kept(m, bs, held) && b in bs
    ensures b in m.table && m.table[b] in held
  {
  }

  lemma StaysAt(m: Mem, m': Mem, b: int, held: set<int>)
    requires Stays(m, m', held) && b in m.table && m.table[b] in held
    ensures b in m'.table && m'.table[b] == m.table[b]
  {
  }

  lemma RecentMore(l: seq<int>, held: set<int>, n: nat, n': nat)
    requires Recent(l, held, n) && n <= n'
    ensures Recent(l, held, n')
  {
  }

  // ---------- All of it together ----------

  ghost predicate Sound(m: Mem, bs: seq<int>, fs: seq<int>, base: Memory, log: seq<Event>) {
    Coherent(m) && InFlight(m, bs, fs) && Logged(m, bs, fs, base, log)
  }

  lemma EmptyLog(m: Mem)
    requires Coherent(m) && Quiet(m)
    ensures Sound(m, [], [], MemoryOf(m), [])
  {
  }

  lemma SoundUncached(m: Mem, bs: seq<int>, fs: seq<int>, base: Memory, log: seq<Event>, b: int)
    requires Sound(m, bs, fs, base, log) && Live(m, b) && b !in m.table && b !in bs
    ensures Uncached(m, b)
  {
    NotCached(m, bs, fs, b);
  }

  /** The victim is a frame; if dirty, it holds a live bucket, and free frames are clean. */
  ghost predicate Takeable(m: Mem) {
    var f := Victim(m.lists);
    && IsFrame(f) && |m.dirty| == |m.lists.ids| == CACHE_SIZE
    && (m.dirty[f] ==> Live(m, m.lists.ids[f]))
    && (m.lists.free != [] ==> !m.dirty[f])
  }

  lemma CoherentTakeable(m: Mem)
    requires Coherent(m)
    ensures Takeable(m)
  {
    var f := Victim(m.lists);
    assert IsFrame(f);
    assert FrameSound(m, f);
  }

  lemma SoundFetch(m: Mem, bs: seq<int>, fs: seq<int>, base: Memory, log: seq<Event>, b: int, held: set<int>, n: nat)
    requires Sound(m, bs, fs, base, log) && Live(m, b) && Uncached(m, b)
    requires FrameSet(fs) <= held && Recent(m.lists.lru, held, n) && n < CACHE_SIZE
    ensures Takeable(m)
    ensures var m', f := Fetched(m, b), Victim(m.lists);
      && Sound(m', bs + [b], fs + [f], base, log + FetchEvents(m, b)) && SameContent(m, m')
      && (forall c :: c in m'.table ==> c in m.table) && Stays(m, m', held)
      && f !in held && FrameSet(fs + [f]) <= held + {f} && Recent(m'.lists.lru, held + {f}, n + 1)
  {
    CoherentTakeable(m);
    FetchKeeps(m, b);
    OccupyInFlight(m, bs, fs, b, Fetched(m, b).frames[Victim(m.lists)], held, n);
    assert Victim(m.lists) !in fs;
    LogFetch(m, bs, fs, base, log, b);
    OccupyStays(m, b, Fetched(m, b).frames[Victim(m.lists)], held);
  }

  /** Fetching a bucket that is in use already leaves the unused ones alone. */
  lemma FreshFetch(m: Mem, bs: seq<int>, fs: seq<int>, base: Memory, log: seq<Event>, b: int, next: int, constructed: seq<bool>)
    requires Sound(m, bs, fs, base, log) && Live(m, b) && Uncached(m, b)
    requires Fresh(m, next, constructed) && !Unused(next, constructed, b)
    ensures Fresh(Fetched(m, b), next, constructed) && Fetched(m, b).lists == Acquire(m.lists, b)
  {
    var host := AfterFlush(m, Victim(m.lists));
    FreshOccupied(m, next, constructed, b, if b in host then host[b] else EMPTY_BUCKET);
    assert Put(constructed, b - next, true) == constructed;
  }

  lemma FreshNew(m: Mem, bs: seq<int>, fs: seq<int>, base: Memory, log: seq<Event>, b: int, next: int, constructed: seq<bool>)
    requires Sound(m, bs, fs, base, log) && Live(m, b) && Fresh(m, next, constructed) && Unused(next, constructed, b)
    ensures Untouched(m, b)
    ensures var m' := Registered(Renewed(m, b), b, Victim(m.lists));
      Fresh(m', next, constructed[b - next := true]) && m'.lists == Acquire(m.lists, b)
  {
    assert Untouched(m, b);
    var m1 := Renewed(m, b);
    FreshOccupied(m, next, constructed, b, EMPTY_BUCKET);
    FreshSame(m1, Registered(m1, b, Victim(m.lists)), next, constructed[b - next := true]);
  }

  lemma AccessIsAcquire(m: Mem, bs: seq<int>, fs: seq<int>, base: Memory, log: seq<Event>, b: int)
    requires Sound(m, bs, fs, base, log) && b in m.table
    ensures Touched(m, m.table[b]).lists == Acquire(m.lists, b)
  {
    TouchIsAcquire(m, b);
  }

  lemma SoundAwait(m: Mem, bs: seq<int>, fs: seq<int>, base: Memory, log: seq<Event>)
    requires Sound(m, bs, fs, base, log) && bs != []
    ensures var m' := Registered(m, bs[0], fs[0]);
      Sound(m', bs[1..], fs[1..], base, log + [Await(Fetch(fs[0], bs[0]))]) && SameContent(m, m')
  {
    RegisterKeeps(m, bs[0], fs[0]);
    RegisterInFlight(m, bs, fs);
    LogAwait(m, bs, fs, base, log);
  }

  // ---------- Recorded accesses, new buckets and slot writes ----------

  lemma RegisteredListed(m: Mem, b: int)
    requires Coherent(m) && b in m.table
    ensures IsFrame(m.table[b]) && m.table[b] in m.lists.lru && m.lists.ids[m.table[b]] == b
  {
  }

  /** Recording an access to a registered bucket. */
  lemma SoundTouch(m: Mem, bs: seq<int>, fs: seq<int>, base: Memory, log: seq<Event>, b: int, held: set<int>, n: nat)
    requires Sound(m, bs, fs, base, log) && b in m.table && Recent(m.lists.lru, held, n)
    ensures var m', f := Touched(m, m.table[b]), m.table[b];
      Sound(m', bs, fs, base, log) && SameContent(m, m') && Recent(m'.lists.lru, held + {f}, n + 1)
  {
    RegisteredListed(m, b);
    TouchKeeps(m, m.table[b]);
    RecentTouch(m.lists.lru, held, n, m.table[b]);
  }

  lemma RegisterLast(m: Mem, bs: seq<int>, fs: seq<int>, b: int, f: int)
    requires InFlight(m, bs + [b], fs + [f]) && |bs| == |fs|
    ensures InFlight(Registered(m, b, f), bs, fs)
  {
    var bs', fs' := bs + [b], fs + [f];
    assert bs'[|bs|] == b && fs'[|fs|] == f;
    forall k | 0 <= k < |bs| ensures bs[k] != b && bs'[k] == bs[k] && fs'[k] == fs[k] { assert bs'[k] != bs'[|bs|]; }
    assert Distinct(bs);
    var m' := Registered(m, b, f);
    forall h | IsFrame(h) && m'.lists.ids[h] != -1 && m'.lists.ids[h] !in m'.table ensures h in fs {
      assert h in fs' && h != f;
    }
  }

  /** A zeroed frame for a bucket that is zero in host memory, registered at once. */
  lemma SoundNew(m: Mem, bs: seq<int>, fs: seq<int>, base: Memory, log: seq<Event>, b: int, held: set<int>, n: nat)
    requires Sound(m, bs, fs, base, log) && Live(m, b) && Untouched(m, b)
    requires FrameSet(fs) <= held && Recent(m.lists.lru, held, n) && n < CACHE_SIZE
    ensures Takeable(m)
    ensures var f := Victim(m.lists); var m' := Registered(Renewed(m, b), b, f);
      && Sound(m', bs, fs, base, log + NewEvents(m)) && SameContent(m, m')
      && f !in held && Recent(m'.lists.lru, held + {f}, n + 1) && Stays(m, m', held)
  {
    hide Coherent, InFlight, Logged, Occupied, SameContent, Recent, Untouched, Uncached, Stays, HostOf;
    CoherentTakeable(m);
    UntouchedIs(m, b);
    var f, m1 := Victim(m.lists), Renewed(m, b);
    OccupyKeeps(m, b, EMPTY_BUCKET);
    OccupyInFlight(m, bs, fs, b, EMPTY_BUCKET, held, n);
    LogNew(m, bs, fs, base, log, b);
    OccupyStays(m, b, EMPTY_BUCKET, held);
    SameBounds(m, m1);
    RegisterKeeps(m1, b, f);
    SameTrans(m, m1, Registered(m1, b, f));
    RegisterLast(m1, bs, fs, b, f);
    RegisterLogged(m1, bs, fs, base, log + NewEvents(m), b, f);
    StaysRegistered(m, m1, b, f, held);
  }

  lemma UntouchedIs(m: Mem, b: int)
    requires Coherent(m) && Live(m, b) && Untouched(m, b)
    ensures Uncached(m, b) && b !in m.table && HostOf(m, b) == EMPTY_BUCKET
  {
  }

  lemma RegisterLogged(m: Mem, bs: seq<int>, fs: seq<int>, base: Memory, log: seq<Event>, b: int, f: int)
    requires Logged(m, bs, fs, base, log)
    ensures Logged(Registered(m, b, f), bs, fs, base, log)
  {
  }

  lemma StaysRegistered(m: Mem, m1: Mem, b: int, f: int, held: set<int>)
    requires Stays(m, m1, held) && b !in m.table
    ensures Stays(m, Registered(m1, b, f), held)
  {
  }

  /** Writing a registered frame while fetches are in flight. */
  lemma SoundStore(m: Mem, bs: seq<int>, fs: seq<int>, base: Memory, log: seq<Event>, b: int, x: LevelBucket)
    requires Sound(m, bs, fs, base, log) && Live(m, b) && b in m.table
    ensures var m' := Stored(m, m.table[b], x);
      && Sound(m', bs, fs, base, log + [Poke(m.table[b], x)])
      && Look(m', b) == x && forall c :: c != b ==> Look(m', c) == Look(m, c)
  {
    var f := m.table[b];
    StoreKeeps(m, b, x);
    forall k | 0 <= k < |fs| ensures fs[k] != f { assert bs[k] != b; }
    LogStore(m, bs, fs, base, log, f, x);
  }

  // ---------- Buckets to fetch ----------

  /** The buckets of bs that are not registered, in order. */
  function Missing(bs: seq<int>, table: map<int, int>): seq<int> {
    if bs == [] then []
    else
      var b := bs[|bs| - 1];
      Missing(bs[..|bs| - 1], table) + if b in table then [] else [b]
  }

  lemma {:induction false} MissingFacts(bs: seq<int>, table: map<int, int>)
    requires Distinct(bs)
    ensures var r := Missing(bs, table);
      Distinct(r) && |r| <= |bs| && forall b :: b in r <==> b in bs && b !in table
  {
    if bs != [] {
      var init, b := bs[..|bs| - 1], bs[|bs| - 1];
      assert bs == init + [b];
      MissingFacts(init, table);
    }
  }

  /** The two accesses of one rehashed entry. */
  lemma AcquireTwo(s: Lists, done: seq<int>, ts: (int, int))
    ensures AcquireAll(s, done + [ts.0, ts.1]) == Acquire(Acquire(AcquireAll(s, done), ts.0), ts.1)
  {
    hide Acquire, AcquireAll;
    AcquireAllSnoc(s, done, ts.0);
    AcquireAllSnoc(s, done + [ts.0], ts.1);
    assert done + [ts.0] + [ts.1] == done + [ts.0, ts.1];
  }

  // ---------- Reads while fetches are in flight ----------

  /** A registered frame reads the same in every interleaving, whatever is still in flight. */
  lemma ReadInFlight(m: Mem, bs: seq<int>, fs: seq<int>, base: Memory, log: seq<Event>, run: seq<Step>, b: int)
    requires Sound(m, bs, fs, base, log) && b in m.table && Possible(base, run) && ProgramOf(run) == log
    ensures IsFrame(m.table[b]) && At(DmaSchedule.After(base, run).mem.frames, m.table[b]) == m.frames[m.table[b]]
  {
    var f := m.table[b];
    RegisteredListed(m, b);
    forall p | p in Outstanding(log) ensures p.frame != f {
      var k :| 0 <= k < |FetchesOf(bs, fs)| && FetchesOf(bs, fs)[k] == p;
      assert p == Fetch(fs[k], bs[k]) && bs[k] !in m.table && m.lists.ids[fs[k]] == bs[k];
    }
    ReadAgrees(base, run, f);
  }

  // ---------- Steps that write nothing ----------

  lemma FetchNoNewDirt(m: Mem, bs: seq<int>, fs: seq<int>, base: Memory, log: seq<Event>, b: int)
    requires Sound(m, bs, fs, base, log)
    ensures NoNewDirt(m, Fetched(m, b))
  {
    hide Occupied;
    var host := AfterFlush(m, Victim(m.lists));
    OccupyNoNewDirt(m, b, if b in host then host[b] else EMPTY_BUCKET);
  }

  lemma NewNoNewDirt(m: Mem, bs: seq<int>, fs: seq<int>, base: Memory, log: seq<Event>, b: int)
    requires Sound(m, bs, fs, base, log)
    ensures NoNewDirt(m, Registered(Renewed(m, b), b, Victim(m.lists)))
  {
    hide Occupied;
    OccupyNoNewDirt(m, b, EMPTY_BUCKET);
  }

  lemma RegisterNoNewDirt(m: Mem, bs: seq<int>, fs: seq<int>, base: Memory, log: seq<Event>, b: int, f: int)
    requires Sound(m, bs, fs, base, log)
    ensures NoNewDirt(m, Registered(m, b, f))
  {
  }

  lemma TouchNoNewDirt(m: Mem, bs: seq<int>, fs: seq<int>, base: Memory, log: seq<Event>, b: int)
    requires Sound(m, bs, fs, base, log) && b in m.table
    ensures NoNewDirt(m, Touched(m, m.table[b]))
  {
  }
}
