/**
 Where the entries of a key are: its four candidate buckets and, in the level an expansion is filling,
 its two rehash targets.
 */
module LevelPlacement {
  import opened Basics
  import opened LevelBuckets
  import opened LevelGeometry
  import opened LruReplacer
  import opened FrameLists
  import opened CachedStore
  import opened StoreContents
  import opened Fetching
  import opened DmaSchedule
  import opened RangeSums

  /** The two seeded hashes; every result holds for any pair of functions. */
  datatype Hashes = Hashes(h1: FixedKey -> nat, h2: FixedKey -> nat)

  function Candidates(g: Geometry, h: Hashes, key: FixedKey): seq<int> {
    if g.addr >= 4 then Get4Buckets(g, h.h1(key), h.h2(key)) else []
  }

  function Targets(g: Geometry, h: Hashes, key: FixedKey): (int, int) {
    if g.addr >= 1 then ExpandBuckets(g, h.h1(key), h.h2(key)) else (-1, -1)
  }

  /** A bucket where a search for the key would look: one of four candidates, or, in the level being
      filled by an expansion, one of two rehash targets. */
  ghost predicate Home(g: Geometry, h: Hashes, key: FixedKey, b: int) {
    if b < g.nextStart then b in Candidates(g, h, key)
    else b == Targets(g, h, key).0 || b == Targets(g, h, key).1
  }

  ghost function HomesIn(g: Geometry, h: Hashes): Homes {
    (key, b) => Home(g, h, key, b)
  }

  /** No expansion is under way. */
  ghost predicate Settled(m: Mem, g: Geometry) {
    ValidGeometry(g) && m.floor == g.blStart && m.end == g.nextStart
  }

  /** All four candidates are live, and distinct. */
  lemma CandidatesLive(m: Mem, g: Geometry, h: Hashes, key: FixedKey)
    requires Settled(m, g)
    ensures var bs := Candidates(g, h, key);
      && |bs| == 4 && Distinct(bs) && (forall b :: b in bs ==> Live(m, b) && b < g.nextStart)
      && bs[2] < bs[3] < g.tlStart <= bs[0] < bs[1]
  {
    CandidatesPlaced(g, h.h1(key), h.h2(key));
    GeometryFacts(g);
  }

  /** Which keys share a candidate or a rehash target, by their hashes. */
  lemma KeysShare(g: Geometry, h: Hashes, a: FixedKey, b: FixedKey)
    requires ValidGeometry(g)
    ensures g.addr >= 4
    ensures var x, y := Candidates(g, h, a), Candidates(g, h, b);
      && |x| == |y| == 4
      && (x[0] == y[0] <==> h.h1(a) % (g.addr / 2) == h.h1(b) % (g.addr / 2)) && (x[1] == y[1] <==> h.h2(a) % (g.addr / 2) == h.h2(b) % (g.addr / 2))
      && (x[2] == y[2] <==> h.h1(a) % (g.addr / 4) == h.h1(b) % (g.addr / 4)) && (x[3] == y[3] <==> h.h2(a) % (g.addr / 4) == h.h2(b) % (g.addr / 4))
    ensures var s, t := Targets(g, h, a), Targets(g, h, b);
      (s.0 == t.0 <==> h.h1(a) % g.addr == h.h1(b) % g.addr) && (s.1 == t.1 <==> h.h2(a) % g.addr == h.h2(b) % g.addr)
  {
    SharedCandidates(g, h.h1(a), h.h2(a), h.h1(b), h.h2(b));
    SharedTargets(g, h.h1(a), h.h2(a), h.h1(b), h.h2(b));
    GeometryFacts(g);
    hide ValidGeometry, Get4Buckets, ExpandBuckets;
  }

  /** Searching the four candidates is searching the store. */
  lemma FoundIsLive(m: Mem, g: Geometry, h: Hashes, key: FixedKey, e: Entry)
    requires Settled(m, g) && e.key == key && exists b :: b in Candidates(g, h, key) && e in Entries(Look(m, b))
    ensures e in Contents(m) && HasKey(Contents(m), key)
  {
    CandidatesLive(m, g, h, key);
    var b :| b in Candidates(g, h, key) && e in Entries(Look(m, b));
    InContents(m, b, e);
  }

  lemma KeyLive(m: Mem, g: Geometry, h: Hashes, key: FixedKey, b: int)
    requires Settled(m, g) && b in Candidates(g, h, key) && HasKey(Entries(Look(m, b)), key)
    ensures HasKey(Contents(m), key)
  {
    CandidatesLive(m, g, h, key);
    EntryLive(m, b, key);
  }

  lemma NotFoundIsDead(m: Mem, g: Geometry, h: Hashes, key: FixedKey)
    requires Settled(m, g) && Placed(m, HomesIn(g, h))
    requires forall b :: b in Candidates(g, h, key) ==> !HasKey(Entries(Look(m, b)), key)
    ensures !HasKey(Contents(m), key)
  {
    if HasKey(Contents(m), key) {
      KeyHasBucket(m, g, h, key);
      assert false;
    }
  }

  lemma KeyHasBucket(m: Mem, g: Geometry, h: Hashes, key: FixedKey)
    requires Settled(m, g) && Placed(m, HomesIn(g, h)) && HasKey(Contents(m), key)
    ensures var bs := Candidates(g, h, key); exists i :: 0 <= i < |bs| && HasKey(Entries(Look(m, bs[i])), key)
  {
    var e :| e in Contents(m) && e.key == key;
    var b := ContentsIn(m, e);
    assert PlacedAt(m, HomesIn(g, h), b);
    GeometryFacts(g);
    assert b in Candidates(g, h, key);
    assert HasKey(Entries(Look(m, b)), key);
  }

  /** A surviving home is a candidate of the grown table. */
  lemma HomeGrown(g: Geometry, h: Hashes, key: FixedKey, b: int)
    requires ValidGeometry(g) && b >= g.tlStart && Home(g, h, key, b) && b < Grown(g).nextStart
    ensures Home(Grown(g), h, key, b)
  {
    ExpansionKeepsCandidates(g, h.h1(key), h.h2(key));
    CandidatesPlaced(g, h.h1(key), h.h2(key));
    GeometryFacts(g);
    var new4 := Candidates(Grown(g), h, key);
    assert new4[0] in new4 && new4[1] in new4 && new4[2] in new4 && new4[3] in new4;
  }

  /** When the parameters grow, every entry is already in a candidate bucket of the grown table. */
  lemma PlacedGrown(m: Mem, g: Geometry, h: Hashes)
    requires ValidGeometry(g) && m.floor == g.tlStart && m.end == g.nextStart + g.addr * 2
    requires Placed(m, HomesIn(g, h))
    ensures Settled(m, Grown(g)) && Placed(m, HomesIn(Grown(g), h))
  {
    GeometryFacts(g);
    GrownValid(g);
    forall key, b | Live(m, b) && HomesIn(g, h)(key, b) ensures HomesIn(Grown(g), h)(key, b) {
      HomeGrown(g, h, key, b);
    }
    PlacedImplies(m, HomesIn(g, h), HomesIn(Grown(g), h));
  }

  ghost function Filled<T>(x: T): seq<T> {
    seq(CACHE_SIZE, _ => x)
  }

  /** The state of a new store: both tables zeroed, every frame free. */
  ghost function InitialMem(g: Geometry): Mem {
    Mem(g.blStart, LiveEnd(g, THREADS), HostView(g, InitialHost(g)), Filled(EMPTY_BUCKET),
        Filled(false), map[], Lists(seq(CACHE_SIZE, i => i), [], Filled(-1)))
  }

  lemma InitialMemKeeps(g: Geometry, home: Homes)
    requires ValidGeometry(g)
    ensures HostShape(g, InitialHost(g)) && Settled(InitialMem(g), g)
    ensures Coherent(InitialMem(g)) && Quiet(InitialMem(g))
    ensures Contents(InitialMem(g)) == multiset{} && Placed(InitialMem(g), home)
  {
    var m := InitialMem(g);
    GeometryFacts(g);
    forall b | Live(m, b) ensures b in m.host && m.host[b] == EMPTY_BUCKET { InitialHostZero(g, b); }
    InitialHostZero(g, 0);
    PristineCoherent(m);
    PristineContents(m, home);
  }

  lemma InitialFresh(g: Geometry, constructed: seq<bool>)
    requires ValidGeometry(g)
    ensures Fresh(InitialMem(g), g.nextStart, constructed)
  {
    GeometryFacts(g);
    var m := InitialMem(g);
    forall b | Unused(g.nextStart, constructed, b) ensures Untouched(m, b) {
      assert b !in m.host;
    }
  }

  // ---------- What a delete leaves in flight ----------

  /** The buckets after the first one that has the key. */
  ghost function AfterFirst(m: Mem, bs: seq<int>, key: FixedKey): seq<int> {
    if bs == [] then []
    else if HasKey(Entries(Look(m, bs[0])), key) then bs[1..]
    else AfterFirst(m, bs[1..], key)
  }

  /** A registered bucket among bs has the key. */
  ghost predicate CachedHit(m: Mem, bs: seq<int>, key: FixedKey) {
    exists b :: b in bs && b in m.table && HasKey(Entries(Look(m, b)), key)
  }

  /** No bucket of bs has the key, except perhaps the last. */
  ghost predicate NoneButLast(m: Mem, bs: seq<int>, key: FixedKey) {
    forall k :: 0 <= k < |bs| - 1 ==> !HasKey(Entries(Look(m, bs[k])), key)
  }

  /** The fetches that ProcessDelete issues and never awaits: none if a registered candidate has the key,
      otherwise those after the first fetched candidate that has it. */
  ghost function LeftBehind(m: Mem, bs: seq<int>, key: FixedKey): seq<int> {
    if CachedHit(m, bs, key) then [] else AfterFirst(m, Missing(bs, m.table), key)
  }

  lemma {:induction false} AfterFirstNone(m: Mem, bs: seq<int>, key: FixedKey)
    requires forall b :: b in bs ==> !HasKey(Entries(Look(m, b)), key)
    ensures AfterFirst(m, bs, key) == []
  {
    hide HasKey, Entries, Look;
    if bs != [] {
      AfterFirstNone(m, bs[1..], key);
    }
  }

  /** Nothing is left behind exactly when a registered candidate has the key, or no candidate that has to be
      fetched, other than the last, has it. */
  lemma LeftBehindNone(m: Mem, bs: seq<int>, key: FixedKey)
    ensures LeftBehind(m, bs, key) == [] <==> CachedHit(m, bs, key) || NoneButLast(m, Missing(bs, m.table), key)
  {
    hide CachedHit, NoneButLast, Missing, AfterFirst;
    AfterFirstEmpty(m, Missing(bs, m.table), key);
  }

  lemma {:induction false} AfterFirstEmpty(m: Mem, bs: seq<int>, key: FixedKey)
    ensures AfterFirst(m, bs, key) == [] <==> NoneButLast(m, bs, key)
  {
    hide HasKey, Entries, Look;
    if bs != [] {
      var rest := bs[1..];
      assert forall k :: 0 <= k < |rest| ==> rest[k] == bs[k + 1];
      AfterFirstEmpty(m, rest, key);
      if |bs| > 1 && !HasKey(Entries(Look(m, bs[0])), key) {
        forall k | 0 <= k < |bs| - 1 && k > 0 ensures bs[k] == rest[k - 1] {}
      }
    }
  }

  lemma {:induction false} AfterFirstAt(m: Mem, bs: seq<int>, key: FixedKey, k: nat)
    requires k < |bs| && HasKey(Entries(Look(m, bs[k])), key)
    requires forall j :: 0 <= j < k ==> !HasKey(Entries(Look(m, bs[j])), key)
    ensures AfterFirst(m, bs, key) == bs[k + 1..]
  {
    hide HasKey, Entries, Look;
    if k > 0 {
      assert forall j :: 0 <= j < k - 1 ==> bs[1..][j] == bs[j + 1];
      AfterFirstAt(m, bs[1..], key, k - 1);
      assert bs[1..][k..] == bs[k + 1..];
    }
  }

  lemma {:induction false} AfterFirstSame(m: Mem, m': Mem, bs: seq<int>, key: FixedKey)
    requires forall b :: b in bs ==> Look(m', b) == Look(m, b)
    ensures AfterFirst(m', bs, key) == AfterFirst(m, bs, key)
  {
    if bs != [] {
      AfterFirstSame(m, m', bs[1..], key);
    }
  }

  /** With no candidate registered and the key in the first one, three fetches are left behind. */
  lemma ColdDeleteLeavesThree(m: Mem, g: Geometry, h: Hashes, key: FixedKey)
    requires Settled(m, g) && forall b :: b in Candidates(g, h, key) ==> b !in m.table
    requires HasKey(Entries(Look(m, Candidates(g, h, key)[0])), key)
    ensures LeftBehind(m, Candidates(g, h, key), key) == Candidates(g, h, key)[1..]
  {
    var bs := Candidates(g, h, key);
    CandidatesLive(m, g, h, key);
    AllMissing(bs, m.table);
  }

  lemma {:induction false} AllMissing(bs: seq<int>, table: map<int, int>)
    requires forall b :: b in bs ==> b !in table
    ensures Missing(bs, table) == bs
  {
    if bs != [] {
      AllMissing(bs[..|bs| - 1], table);
    }
  }

  /** The next request for a bucket left behind finds it unregistered and fetches it again: two frames are
      then named for one bucket. */
  lemma RefetchDuplicates(m: Mem, f: int)
    requires Coherent(m) && IsFrame(f) && m.lists.ids[f] != -1 && f != Victim(m.lists)
    ensures !WellListed(Taken(m.lists, m.lists.ids[f]))
  {
    var s, v, b := m.lists, Victim(m.lists), m.lists.ids[f];
    assert IsFrame(v) && Taken(s, b).ids[v] == b && Taken(s, b).ids[f] == b;
  }

  /** When the stale one of two frames named for a bucket is evicted clean, the registration of the other is
      erased: the bucket reads as host memory again, whatever had been written to its frame. */
  lemma StaleEvictionForgets(m: Mem, b: int, bucket: int, x: LevelBucket)
    requires Shape(m) && b in m.table && IsFrame(Victim(m.lists)) && m.lists.ids[Victim(m.lists)] == b
    requires !m.dirty[Victim(m.lists)] && m.table[b] != Victim(m.lists)
    ensures Look(Occupied(m, bucket, x), b) == HostOf(m, b)
  {
  }

  /** The whole mishap: b is named by the frame f of a fetch left behind, which is next but one in line. A later
      request fetches b again and writes x; the next frame taken is f, and b reads as host memory: x is lost. */
  lemma RefetchLosesWrite(m: Mem, b: int, f: int, v: int, x: LevelBucket, c: int, y: LevelBucket)
    requires Coherent(m) && Live(m, b) && b !in m.table && IsFrame(f) && m.lists.ids[f] == b && c != b
    requires m.lists.free == [] && |m.lists.lru| >= 2
    requires m.lists.lru[|m.lists.lru| - 1] == v && m.lists.lru[|m.lists.lru| - 2] == f
    ensures var m2 := Stored(Registered(Fetched(m, b), b, v), v, x);
      Look(m2, b) == x && Victim(m2.lists) == f && Look(Occupied(m2, c, y), b) == HostOf(m, b)
  {
    hide Entries;
    var s := m.lists;
    var m1 := Registered(Fetched(m, b), b, v);
    assert Victim(s) == v && IsFrame(v) && v != f;
    WithoutMembers(s.lru[..|s.lru| - 1], v);
    WithoutAbsent(s.lru[..|s.lru| - 1], v);
    assert FrameSound(m, f) && FrameSound(m, v) && !m.dirty[f];
    assert m1.lists.lru == [v] + s.lru[..|s.lru| - 1];
    var m2 := Stored(m1, v, x);
    assert m2.lists.lru[|m2.lists.lru| - 1] == f;
    StaleEvictionForgets(m2, b, c, y);
    assert s.ids[v] != b;
    assert HostOf(m2, b) == HostOf(m, b);
  }

  // ---------- When an insert is refused ----------

  /** No entry of bucket b can be moved: every other top-level candidate of each of them is full. */
  ghost predicate Immovable(m: Mem, g: Geometry, h: Hashes, b: int) {
    forall slot, j :: 0 <= slot < ASSOC_NUM && 0 <= j < 2 ==> NoRoomFor(m, g, h, b, slot, j)
  }

  ghost predicate NoRoomFor(m: Mem, g: Geometry, h: Hashes, b: int, slot: int, j: int)
    requires 0 <= slot < ASSOC_NUM
  {
    var bs := Candidates(g, h, Look(m, b).slots[slot].key);
    0 <= j < |bs| && bs[j] != b ==> IsFull(Look(m, bs[j]))
  }

  /** All candidates of the key are full and none of their entries can be moved. */
  ghost predicate Stuck(m: Mem, g: Geometry, h: Hashes, key: FixedKey) {
    forall b :: b in Candidates(g, h, key) ==> IsFull(Look(m, b)) && Immovable(m, g, h, b)
  }

  lemma CandidatesOf(g: Geometry, h: Hashes, key: FixedKey)
    requires ValidGeometry(g)
    ensures g.bl >= 2 && Candidates(g, h, key) ==
      [g.tlStart + h.h1(key) % g.bl, g.tlStart + g.bl + h.h2(key) % g.bl,
       g.blStart + h.h1(key) % (g.bl / 2), g.blStart + g.bl / 2 + h.h2(key) % (g.bl / 2)]
  {
    CandidatesAre(g, h.h1(key), h.h2(key));
    GeometryFacts(g);
    hide ValidGeometry, Get4Buckets;
  }

  /** A key is not stuck while one of the four buckets its hashes point at has room. */
  lemma RoomForKey(m: Mem, g: Geometry, h: Hashes, key: FixedKey)
    requires ValidGeometry(g) && Stuck(m, g, h, key)
    ensures g.bl >= 2
    ensures IsFull(Look(m, g.tlStart + h.h1(key) % g.bl)) && IsFull(Look(m, g.tlStart + g.bl + h.h2(key) % g.bl))
    ensures IsFull(Look(m, g.blStart + h.h1(key) % (g.bl / 2))) && IsFull(Look(m, g.blStart + g.bl / 2 + h.h2(key) % (g.bl / 2)))
  {
    hide ValidGeometry, Candidates, Immovable, IsFull, Look;
    CandidatesOf(g, h, key);
    var bs := Candidates(g, h, key);
    assert bs[0] in bs && bs[1] in bs && bs[2] in bs && bs[3] in bs;
  }

  /** An insert is only refused by a store that holds at least four full buckets. */
  lemma StuckIsFull(m: Mem, g: Geometry, h: Hashes, key: FixedKey)
    requires Settled(m, g) && Stuck(m, g, h, key)
    ensures |Contents(m)| >= 4 * ASSOC_NUM
  {
    hide Candidates, Entries, Immovable, Look;
    CandidatesLive(m, g, h, key);
    var bs, f := Candidates(g, h, key), EntriesIn(m);
    forall i | 0 <= i < 4 ensures |f(bs[i])| == ASSOC_NUM { assert bs[i] in bs; }
    assert bs[0] in bs && bs[1] in bs && bs[2] in bs && bs[3] in bs;
    AtLeast(f, m.floor, bs[2], m.end);
    AtLeast(f, bs[2] + 1, bs[3], m.end);
    AtLeast(f, bs[3] + 1, bs[0], m.end);
    AtLeast(f, bs[0] + 1, bs[1], m.end);
  }

  lemma AtLeast(f: int -> multiset<Entry>, lo: int, b: int, hi: int)
    requires lo <= b < hi
    ensures |SumOf(f, lo, hi)| >= |f(b)| + |SumOf(f, b + 1, hi)|
  {
    SumOfSplit(f, lo, b, hi);
    SumOfFirst(f, b, hi);
  }

  lemma CandidateIsHome(m: Mem, g: Geometry, h: Hashes, key: FixedKey, b: int)
    requires Settled(m, g) && b in Candidates(g, h, key)
    ensures HomesIn(g, h)(key, b)
  {
    CandidatesLive(m, g, h, key);
    GeometryFacts(g);
  }

  // ---------- With the inserts compiled out ----------

  /** What the store holds, as the bottom level and the rest. */
  lemma BottomAndRest(m: Mem, g: Geometry)
    requires Coherent(m) && Settled(m, g)
    ensures Contents(m) ==
      SumOf(EntriesIn(m), g.blStart, g.tlStart) + ContentsFrom(Extended(m, g.nextStart + g.addr * 2), g.tlStart)
  {
    hide Entries;
    GeometryFacts(g);
    var end' := g.nextStart + g.addr * 2;
    var m1 := Extended(m, end');
    ExtendContents(m, end');
    SumOfSplit(EntriesIn(m1), g.blStart, g.tlStart, end');
    forall b | g.blStart <= b < g.tlStart ensures Look(m1, b) == Look(m, b) { ExtendContent(m, end', b); }
    SumSame(m, m1, g.blStart, g.tlStart);
  }

  /** A frame rewritten without being marked. */
  ghost function Slipped(m: Mem, f: int, x: LevelBucket): Mem {
    Mem(m.floor, m.end, m.host, Put(m.frames, f, x), m.dirty, m.table, m.lists)
  }

  /** Such a write changes the bucket, and breaks the cache exactly when the frame was not marked before. */
  lemma SlipExactly(m: Mem, b: int, x: LevelBucket)
    requires Coherent(m) && Live(m, b) && b in m.table && x != Look(m, b)
    ensures var f := m.table[b];
      && IsFrame(f) && OnlyChanged(m, Slipped(m, f, x), b) && Look(Slipped(m, f, x), b) == x
      && (Coherent(Slipped(m, f, x)) <==> m.dirty[f])
  {
    var f := m.table[b];
    var m' := Slipped(m, f, x);
    assert Shape(m') && FrameSound(m, f);
    forall c | c in m.table && c != b ensures m.table[c] != f { assert m.lists.ids[m.table[c]] == c; }
    forall k | IsFrame(k) && k != f ensures FrameSound(m', k) { assert FrameSound(m, k); }
  }

  /** One entry has changed its bucket and nothing else has happened. */
  lemma MovedOnly(m: Mem, m1: Mem, m2: Mem, src: int, dst: int, y: Entry, home: Homes)
    requires Live(m, src) && Live(m, dst) && Placed(m, home) && home(y.key, dst)
    requires OnlyChanged(m, m1, dst) && HoldsOneMore(Look(m, dst), Look(m1, dst), y)
    requires OnlyChanged(m1, m2, src) && HoldsOneMore(Look(m2, src), Look(m1, src), y)
    ensures Contents(m2) == Contents(m) && Placed(m2, home)
  {
    hide Entries, HoldsOneMore, Look, Placed;
    EntryAdded(m, m1, dst, y, home, m.floor);
    EntryRemoved(m1, m2, src, y, home);
    var one := multiset{y};
    assert Contents(m2) + one == Contents(m) + one;
    assert Contents(m2) == (Contents(m2) + one) - one;
    assert Contents(m) == (Contents(m) + one) - one;
  }

  // ---------- Splitting a bucket ----------

  /** The two targets are distinct live buckets of the next level, and homes of the key. */
  lemma TargetsLive(m: Mem, g: Geometry, h: Hashes, key: FixedKey)
    requires ValidGeometry(g) && m.end == g.nextStart + g.addr * 2 && m.floor <= g.tlStart
    ensures var (t0, t1) := Targets(g, h, key);
      && t0 != t1 && Live(m, t0) && Live(m, t1) && t0 >= g.nextStart && t1 >= g.nextStart
      && HomesIn(g, h)(key, t0) && HomesIn(g, h)(key, t1)
  {
    GeometryFacts(g);
  }

  /** The buckets accessed while the first n slots of x are rehashed. */
  ghost function SplitAccesses(x: LevelBucket, g: Geometry, h: Hashes, n: nat): seq<int>
    requires n <= ASSOC_NUM
  {
    if n == 0 then []
    else
      SplitAccesses(x, g, h, n - 1)
      + if x.token[n - 1] then var (t0, t1) := Targets(g, h, x.slots[n - 1].key); [t0, t1] else []
  }

  lemma {:induction false} SplitAccessesBounds(x: LevelBucket, g: Geometry, h: Hashes, n: nat)
    requires ValidGeometry(g) && n <= ASSOC_NUM
    ensures |SplitAccesses(x, g, h, n)| <= 2 * n && forall b :: b in SplitAccesses(x, g, h, n) ==> b >= g.nextStart
  {
    if n > 0 {
      SplitAccessesBounds(x, g, h, n - 1);
      GeometryFacts(g);
      var (t0, t1) := Targets(g, h, x.slots[n - 1].key);
      assert t0 >= g.nextStart && t1 >= g.nextStart;
    }
  }

  /** The bucket being split is still in its frame afterwards exactly if enough other frames were available. */
  lemma SplitSurvivesExactly(m: Mem, g: Geometry, h: Hashes, x: LevelBucket, f: int, bucket: int)
    requires ValidGeometry(g) && Coherent(m) && bucket in m.table && m.table[bucket] == f && bucket < g.nextStart
    ensures var s := AcquireAll(m.lists, SplitAccesses(x, g, h, ASSOC_NUM));
      && IsFrame(f) && f in m.lists.lru && WellListed(s)
      && (s.ids[f] == bucket <==> Survives(m.lists, f, SplitAccesses(x, g, h, ASSOC_NUM)))
  {
    SplitAccessesBounds(x, g, h, ASSOC_NUM);
    GeometryFacts(g);
    RegisteredListed(m, bucket);
    SurvivesExactly(m.lists, f, SplitAccesses(x, g, h, ASSOC_NUM));
  }

  /** A frame that has just been accessed survives its split. */
  lemma FrontSurvivesSplit(m: Mem, g: Geometry, h: Hashes, x: LevelBucket, f: int)
    requires ValidGeometry(g) && Coherent(m) && m.lists.lru != [] && m.lists.lru[0] == f
    ensures Survives(m.lists, f, SplitAccesses(x, g, h, ASSOC_NUM))
  {
    SplitAccessesBounds(x, g, h, ASSOC_NUM);
    FrontSurvives(m.lists, f, SplitAccesses(x, g, h, ASSOC_NUM));
  }

  /** A bucket that was split while another one took its frame is in no frame any more. */
  lemma SplitLeavesNoName(m: Mem, g: Geometry, h: Hashes, x: LevelBucket, f: int, bucket: int)
    requires ValidGeometry(g) && Coherent(m) && bucket in m.table && m.table[bucket] == f && bucket < g.nextStart
    ensures var s := AcquireAll(m.lists, SplitAccesses(x, g, h, ASSOC_NUM));
      |s.ids| == CACHE_SIZE && IsFrame(f) && (s.ids[f] == bucket || forall k :: IsFrame(k) ==> s.ids[k] != bucket)
  {
    hide SplitAccesses, AcquireAll, FrameSound;
    var bs := SplitAccesses(x, g, h, ASSOC_NUM);
    SplitAccessesBounds(x, g, h, ASSOC_NUM);
    GeometryFacts(g);
    RegisteredListed(m, bucket);
    AcquireAllNames(m.lists, bs, f);
    forall k | IsFrame(k) && k != f ensures AcquireAll(m.lists, bs).ids[k] != bucket {
      AcquireAllNames(m.lists, bs, k);
      assert m.lists.ids[k] != m.lists.ids[f];
    }
  }

  /** When a frame whose mark was cleared wrongly is evicted, its bucket is back to what host memory last held. */
  lemma LostMarkLoses(m: Mem, f: int, bucket: int, x: LevelBucket)
    requires Coherent(m) && IsFrame(f) && LosesMark(m, f) && f == Victim(m.lists)
    ensures var b := m.lists.ids[f];
      && Live(Retired(m, f), b) && Look(Retired(m, f), b) == Look(m, b)
      && Look(Occupied(Retired(m, f), bucket, x), b) == HostOf(m, b) != Look(m, b)
  {
    assert FrameSound(m, f);
  }

  lemma NotNamed(m: Mem, b: int)
    requires Coherent(m) && Untouched(m, b)
    ensures !Cached(m.lists, b) && b !in m.table && HostOf(m, b) == EMPTY_BUCKET && WellListed(m.lists)
  {
  }

  lemma StillLast(s: Lists, h: int, f: int)
    requires s.lru != [] && s.lru[|s.lru| - 1] == f && h != f
    ensures Touch(s.lru, h) != [] && Touch(s.lru, h)[|Touch(s.lru, h)| - 1] == f
  {
    var init := s.lru[..|s.lru| - 1];
    assert s.lru == init + [f];
    WithoutConcat(init, [f], h);
    WithoutAbsent([f], h);
  }

  /** What a frame taken from a full cache leaves as it was. */
  lemma TakeClean(m: Mem, b: int, f: int)
    requires Shape(m) && m.lists.free == [] && m.lists.lru != [] && m.lists.lru[|m.lists.lru| - 1] == f && IsFrame(f)
    requires HostOf(m, b) == EMPTY_BUCKET && m.lists.ids[f] != b
    ensures var m' := Renewed(m, b);
      && Victim(m.lists) == f && Shape(m') && m'.frames[f] == EMPTY_BUCKET && m'.floor == m.floor && m'.lists.ids[f] == b && HostOf(m', b) == EMPTY_BUCKET
      && (forall k :: IsFrame(k) && k != f ==> m'.frames[k] == m.frames[k])
      && (forall c :: c in m.table && c != m.lists.ids[f] ==> c in m'.table && m'.table[c] == m.table[c])
  {
    hide Touch;
  }

  /** One more slot: its entry, and its accesses. */
  lemma SplitStep(x: LevelBucket, g: Geometry, h: Hashes, slot: nat, c: multiset<Entry>)
    requires slot < ASSOC_NUM
    ensures c + SumOf(SlotEntry(x), 0, slot + 1) ==
      if x.token[slot] then (c + SumOf(SlotEntry(x), 0, slot)) + multiset{x.slots[slot]} else c + SumOf(SlotEntry(x), 0, slot)
    ensures SplitAccesses(x, g, h, slot + 1) ==
      if x.token[slot] then SplitAccesses(x, g, h, slot) + [Targets(g, h, x.slots[slot].key).0, Targets(g, h, x.slots[slot].key).1]
      else SplitAccesses(x, g, h, slot)
  {
    hide Targets;
    assert SumOf(SlotEntry(x), 0, slot + 1) == SumOf(SlotEntry(x), 0, slot) + SlotEntry(x)(slot);
  }

  lemma SplitZero(s: Lists, x: LevelBucket, g: Geometry, h: Hashes, c: multiset<Entry>)
    ensures c + SumOf(SlotEntry(x), 0, 0) == c && AcquireAll(s, SplitAccesses(x, g, h, 0)) == s
  {
  }

  lemma SoundRetired(m: Mem, f: int, base: Memory, log: seq<Event>)
    requires Sound(m, [], [], base, log) && IsFrame(f) && !LosesMark(m, f)
    requires m.lists.ids[f] == m.floor || forall k :: IsFrame(k) ==> m.lists.ids[k] != m.floor
    ensures Sound(Retired(m, f), [], [], base, log)
  {
    RetireExactly(m, f);
  }
}
