/**
 The state of the store on values: host memory behind a write-back cache of 128 frames.
 Steps of the cache are functions on this state; what they keep is proved here.
 */
module CachedStore {
  import opened Basics
  import opened LevelBuckets
  import opened LruReplacer
  import opened FrameLists

  /** Buckets floor..end-1 are live and `host` is their memory on the host. `lists.ids[f]` names the bucket
      in frame f (-1: none) and `table` maps a bucket to the frame registered for it; a frame that is named
      but not registered has a fetch in flight. The floor moves up while an expansion empties the bottom level. */
  datatype Mem = Mem(
    floor: int, end: int, host: map<int, LevelBucket>,
    frames: seq<LevelBucket>, dirty: seq<bool>, table: map<int, int>, lists: Lists)

  ghost predicate Live(m: Mem, bucket: int) {
    m.floor <= bucket < m.end
  }

  ghost predicate Shape(m: Mem) {
    && 0 <= m.floor && (forall b :: Live(m, b) ==> b in m.host)
    && |m.frames| == |m.dirty| == |m.lists.ids| == CACHE_SIZE
  }

  ghost function HostOf(m: Mem, bucket: int): LevelBucket {
    if bucket in m.host then m.host[bucket] else EMPTY_BUCKET
  }

  ghost predicate IdsBounded(m: Mem) {
    forall f :: 0 <= f < |m.lists.ids| ==> m.lists.ids[f] < m.end
  }

  /** Registered buckets are in the frame that is named for them. */
  ghost predicate TableMatches(m: Mem) {
    forall b :: b in m.table ==> 0 <= m.table[b] < |m.lists.ids| && m.lists.ids[m.table[b]] == b && b != -1
  }

  /** A dirty frame is registered for a live bucket; a clean frame of a live bucket equals host memory. */
  ghost predicate FrameSound(m: Mem, f: int)
    requires Shape(m) && IsFrame(f)
  {
    var b := m.lists.ids[f];
    if m.dirty[f] then Live(m, b) && b in m.table
    else Live(m, b) ==> m.frames[f] == HostOf(m, b)
  }

  ghost predicate Coherent(m: Mem) {
    && Shape(m) && WellListed(m.lists) && IdsBounded(m) && TableMatches(m)
    && forall f :: IsFrame(f) ==> FrameSound(m, f)
  }

  /** No fetch is in flight: with TableMatches, `table` and `ids` are mutually inverse. */
  ghost predicate Quiet(m: Mem) {
    forall f :: 0 <= f < |m.lists.ids| && m.lists.ids[f] != -1 ==> m.lists.ids[f] in m.table
  }

  /** The content of a bucket: its frame if one is registered, otherwise host memory. */
  ghost function Look(m: Mem, bucket: int): LevelBucket {
    if bucket in m.table && 0 <= m.table[bucket] < |m.frames| then m.frames[m.table[bucket]]
    else HostOf(m, bucket)
  }

  ghost predicate SameContent(m: Mem, m': Mem) {
    m'.floor == m.floor && m'.end == m.end && forall b :: Live(m, b) ==> Look(m', b) == Look(m, b)
  }

  // ---------- Steps ----------

  /** Host memory once frame f has been written back if dirty. */
  ghost function AfterFlush(m: Mem, f: int): map<int, LevelBucket> {
    if 0 <= f < |m.dirty| && f < |m.lists.ids| && f < |m.frames| && m.dirty[f]
    then m.host[m.lists.ids[f] := m.frames[f]] else m.host
  }

  ghost function IdAt(m: Mem, f: int): int {
    if 0 <= f < |m.lists.ids| then m.lists.ids[f] else -1
  }

  /** The victim frame has been written back if dirty, deregistered, and now holds `bucket` with content x;
      it is not registered yet. */
  ghost function Occupied(m: Mem, bucket: int, x: LevelBucket): Mem {
    var f := Victim(m.lists);
    Mem(m.floor, m.end, AfterFlush(m, f), Put(m.frames, f, x), Put(m.dirty, f, false),
        m.table - {IdAt(m, f)}, Taken(m.lists, bucket))
  }

  /** FetchBucket: the victim is loaded from host memory. */
  ghost function Fetched(m: Mem, bucket: int): Mem {
    var host := AfterFlush(m, Victim(m.lists));
    Occupied(m, bucket, if bucket in host then host[bucket] else EMPTY_BUCKET)
  }

  /** NewBucket: the victim is zeroed. */
  ghost function Renewed(m: Mem, bucket: int): Mem {
    Occupied(m, bucket, EMPTY_BUCKET)
  }

  lemma RenewedTable(m: Mem, bucket: int)
    ensures forall b :: b in Renewed(m, bucket).table ==> b in m.table
  {
  }

  ghost function Registered(m: Mem, bucket: int, f: int): Mem {
    Mem(m.floor, m.end, m.host, m.frames, m.dirty, m.table[bucket := f], m.lists)
  }

  ghost function Touched(m: Mem, f: int): Mem {
    Mem(m.floor, m.end, m.host, m.frames, m.dirty, m.table, Lists(m.lists.free, Touch(m.lists.lru, f), m.lists.ids))
  }

  /** A slot operation has rewritten frame f and marked it dirty. */
  ghost function Stored(m: Mem, f: int, x: LevelBucket): Mem {
    Mem(m.floor, m.end, m.host, Put(m.frames, f, x), Put(m.dirty, f, true), m.table, m.lists)
  }

  ghost predicate Uncached(m: Mem, bucket: int) {
    !Cached(m.lists, bucket) && bucket != -1
  }

  /** A bucket that is in no frame and reads as zero. */
  ghost predicate Untouched(m: Mem, b: int) {
    Uncached(m, b) && HostOf(m, b) == EMPTY_BUCKET
  }

  /** Only constructed buckets of the next level, which starts at `next`, may differ from zero. */
  ghost predicate Fresh(m: Mem, next: int, constructed: seq<bool>) {
    forall b :: Unused(next, constructed, b) ==> Untouched(m, b)
  }

  // ---------- What the steps keep ----------

  /** Frames dirty in m' were dirty in m, for the same bucket. */
  ghost predicate NoNewDirt(m: Mem, m': Mem) {
    && |m.dirty| == |m'.dirty| == |m.lists.ids| == |m'.lists.ids| == CACHE_SIZE
    && forall f :: IsFrame(f) && m'.dirty[f] ==> m.dirty[f] && m'.lists.ids[f] == m.lists.ids[f]
  }

  lemma NoNewDirtTrans(m: Mem, m1: Mem, m2: Mem)
    requires NoNewDirt(m, m1) && NoNewDirt(m1, m2)
    ensures NoNewDirt(m, m2)
  {
  }

  lemma OccupyNoNewDirt(m: Mem, bucket: int, x: LevelBucket)
    requires Coherent(m)
    ensures NoNewDirt(m, Occupied(m, bucket, x))
  {
  }

  lemma SameRefl(m: Mem)
    ensures SameContent(m, m)
  {
  }

  lemma SameBounds(m: Mem, m': Mem)
    requires SameContent(m, m')
    ensures m'.floor == m.floor && m'.end == m.end && forall b :: Live(m', b) <==> Live(m, b)
  {
  }

  lemma SameAt(m: Mem, m': Mem, b: int)
    requires SameContent(m, m') && Live(m, b)
    ensures Look(m', b) == Look(m, b)
  {
  }

  lemma SameTrans(m: Mem, m1: Mem, m2: Mem)
    requires SameContent(m, m1) && SameContent(m1, m2)
    ensures SameContent(m, m2)
  {
  }

  lemma OccupyShape(m: Mem, bucket: int, x: LevelBucket)
    requires Coherent(m) && Live(m, bucket) && Uncached(m, bucket)
    ensures var m' := Occupied(m, bucket, x);
      && IsFrame(Victim(m.lists)) && m'.lists.ids == m.lists.ids[Victim(m.lists) := bucket]
      && Shape(m') && WellListed(m'.lists) && IdsBounded(m')
  {
    TakenWellListed(m.lists, bucket);
  }

  lemma OccupyTable(m: Mem, bucket: int, x: LevelBucket)
    requires Coherent(m) && Live(m, bucket) && Uncached(m, bucket)
    ensures TableMatches(Occupied(m, bucket, x))
  {
    OccupyShape(m, bucket, x);
    var f, m' := Victim(m.lists), Occupied(m, bucket, x);
    forall b | b in m'.table ensures 0 <= m'.table[b] < |m'.lists.ids| && m'.lists.ids[m'.table[b]] == b && b != -1 {
      assert b in m.table && b != m.lists.ids[f];
    }
  }

  lemma OccupySound(m: Mem, bucket: int, x: LevelBucket, h: int)
    requires Coherent(m) && Live(m, bucket) && Uncached(m, bucket)
    requires x == HostOf(m, bucket) && IsFrame(h)
    requires Shape(Occupied(m, bucket, x))
    ensures FrameSound(Occupied(m, bucket, x), h)
  {
    OccupyShape(m, bucket, x);
    var f := Victim(m.lists);
    assert m.lists.ids[f] != bucket;
    if h != f {
      assert FrameSound(m, h);
      assert m.lists.ids[h] == m.lists.ids[f] ==> m.lists.ids[h] == -1;
    }
  }

  lemma OccupyContent(m: Mem, bucket: int, x: LevelBucket, b: int)
    requires Coherent(m) && Live(m, bucket) && Uncached(m, bucket)
    requires x == HostOf(m, bucket) && Live(m, b)
    ensures Look(Occupied(m, bucket, x), b) == Look(m, b)
  {
    OccupyShape(m, bucket, x);
    var f := Victim(m.lists);
    assert FrameSound(m, f);
    if b == m.lists.ids[f] {
      if b in m.table { assert m.table[b] == f; }
    } else if b in m.table {
      assert m.table[b] != f;
    }
  }

  /** Cache transparency of taking a frame: whatever was there is still found, the new bucket reads as before. */
  lemma OccupyKeeps(m: Mem, bucket: int, x: LevelBucket)
    requires Coherent(m) && Live(m, bucket) && Uncached(m, bucket)
    requires x == HostOf(m, bucket)
    ensures var m', f := Occupied(m, bucket, x), Victim(m.lists);
      && Coherent(m') && SameContent(m, m')
      && IsFrame(f) && m'.lists.ids == m.lists.ids[f := bucket] && m'.frames[f] == x == Look(m, bucket)
  {
    OccupyShape(m, bucket, x);
    OccupyTable(m, bucket, x);
    forall h | IsFrame(h) { OccupySound(m, bucket, x, h); }
    forall b | Live(m, b) { OccupyContent(m, bucket, x, b); }
    assert bucket !in m.table;
  }

  lemma FetchKeeps(m: Mem, bucket: int)
    requires Coherent(m) && Live(m, bucket) && Uncached(m, bucket)
    ensures var m', f := Fetched(m, bucket), Victim(m.lists);
      && Coherent(m') && SameContent(m, m')
      && IsFrame(f) && m'.lists.ids == m.lists.ids[f := bucket] && m'.frames[f] == Look(m, bucket)
  {
    OccupyShape(m, bucket, EMPTY_BUCKET);
    assert m.lists.ids[Victim(m.lists)] != bucket;
    OccupyKeeps(m, bucket, HostOf(m, bucket));
  }

  /** Registering a completed fetch. */
  lemma RegisterKeeps(m: Mem, bucket: int, f: int)
    requires Coherent(m) && IsFrame(f) && m.lists.ids[f] == bucket && Live(m, bucket)
    ensures Coherent(Registered(m, bucket, f))
    ensures SameContent(m, Registered(m, bucket, f))
  {
    assert FrameSound(m, f);
    var m' := Registered(m, bucket, f);
    forall h | IsFrame(h) ensures FrameSound(m', h) { assert FrameSound(m, h); }
    if bucket in m.table { assert m.table[bucket] == f; }
  }

  lemma TouchKeeps(m: Mem, f: int)
    requires Coherent(m) && f in m.lists.lru
    ensures Coherent(Touched(m, f)) && SameContent(m, Touched(m, f))
  {
    TouchDistinct(m.lists.lru, f);
    var m' := Touched(m, f);
    forall h | IsFrame(h) ensures FrameSound(m', h) { assert FrameSound(m, h); }
  }

  /** Rewriting a registered frame rewrites that bucket and no other. */
  lemma StoreKeeps(m: Mem, bucket: int, x: LevelBucket)
    requires Coherent(m) && Live(m, bucket) && bucket in m.table
    ensures var m' := Stored(m, m.table[bucket], x);
      && Coherent(m')
      && Look(m', bucket) == x
      && forall b :: b != bucket ==> Look(m', b) == Look(m, b)
  {
    var f := m.table[bucket];
    var m' := Stored(m, f, x);
    forall h | IsFrame(h) ensures FrameSound(m', h) { assert FrameSound(m, h); }
    forall b | b in m.table && b != bucket ensures m.table[b] != f {
      assert m.lists.ids[m.table[b]] == b;
    }
  }

  // ---------- Unused buckets of the next level ----------

  /** Bucket b belongs to the next level and has not been used. */
  ghost predicate Unused(next: int, constructed: seq<bool>, b: int) {
    0 <= b - next < |constructed| && !constructed[b - next]
  }

  lemma FreshOccupied(m: Mem, next: int, constructed: seq<bool>, b: int, x: LevelBucket)
    requires Coherent(m) && Live(m, b) && Uncached(m, b) && Fresh(m, next, constructed)
    ensures Fresh(Occupied(m, b, x), next, Put(constructed, b - next, true))
  {
    OccupyShape(m, b, x);
    var f, m' := Victim(m.lists), Occupied(m, b, x);
    forall c | Unused(next, Put(constructed, b - next, true), c) ensures Untouched(m', c) {
      assert Unused(next, constructed, c) && c != b && Untouched(m, c);
      forall h | 0 <= h < |m'.lists.ids| ensures m'.lists.ids[h] != c { assert m.lists.ids[h] != c; }
    }
  }

  lemma FreshSame(m: Mem, m': Mem, next: int, constructed: seq<bool>)
    requires Fresh(m, next, constructed) && m'.lists.ids == m.lists.ids && m'.host == m.host
    ensures Fresh(m', next, constructed)
  {
    forall c | Unused(next, constructed, c) ensures Untouched(m', c) { assert Untouched(m, c); }
  }

  /** Beyond the end there is no memory and nothing in the cache. */
  lemma FreshBeyond(m: Mem, next: int, constructed: seq<bool>)
    requires Coherent(m) && next >= m.end && m.floor <= m.end && forall b :: b in m.host ==> b < m.end
    ensures Fresh(m, next, constructed)
  {
    forall c | Unused(next, constructed, c) ensures Untouched(m, c) {
      assert c !in m.host;
    }
  }

  // ---------- The frame lists ----------

  /** Touching a registered bucket, and taking a frame for one that is not cached, are accesses. */
  lemma TouchIsAcquire(m: Mem, b: int)
    requires Coherent(m) && b in m.table
    ensures Touched(m, m.table[b]).lists == Acquire(m.lists, b)
  {
    var f := m.table[b];
    assert m.lists.ids[f] == b;
    assert Grab(m.lists, b) == f;
  }

}
