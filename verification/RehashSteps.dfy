/**
 An expansion on values: what rehashing does to cache, host memory and the marks of constructed buckets, as a
 function of the state it starts in.
 */
module RehashSteps {
  import opened Basics
  import opened LevelBuckets
  import opened LevelGeometry
  import opened LruReplacer
  import opened FrameLists
  import opened CachedStore
  import opened StoreContents
  import opened LevelPlacement

  /** How an expansion ends: completed; terminated because an entry found both its targets full; or with the
      dirty mark of another bucket cleared, which had taken the frame of a bucket during its own split. */
  datatype ExpandOutcome = Expanded | InsertFailed | MarkLost

  /** The store and which buckets of the next level have been constructed. */
  datatype Stage = Stage(m: Mem, made: seq<bool>)

  /** A state and how things stand in it. */
  datatype Course = Course(outcome: ExpandOutcome, stage: Stage)

  /** What a bucket is given: a zeroed frame if it is not constructed yet, an access if it is registered, or a fetch. */
  ghost function Requested(s: Stage, next: int, b: int): Stage {
    if Unused(next, s.made, b) then
      Stage(Registered(Renewed(s.m, b), b, Victim(s.m.lists)), Put(s.made, b - next, true))
    else if b in s.m.table then Stage(Touched(s.m, s.m.table[b]), s.made)
    else Stage(Fetched(s.m, b), s.made)
  }

  /** The frame it is given. */
  ghost function FrameOf(s: Stage, next: int, b: int): int {
    if !Unused(next, s.made, b) && b in s.m.table then s.m.table[b] else Victim(s.m.lists)
  }

  /** A bucket in flight is registered. */
  ghost function Awaited(s: Stage, b: int, f: int): Stage {
    if b in s.m.table then s else Stage(Registered(s.m, b, f), s.made)
  }

  /** FetchNBuckets for two buckets. */
  ghost function BothFetched(s: Stage, next: int, b0: int, b1: int): Stage {
    var s1 := Requested(s, next, b0);
    var s2 := Requested(s1, next, b1);
    Awaited(Awaited(s2, b0, FrameOf(s, next, b0)), b1, FrameOf(s1, next, b1))
  }

  /** The emptier of two buckets; the first if they are equal. */
  ghost function Emptier(m: Mem, b0: int, b1: int): int {
    if |Entries(Look(m, b0))| > |Entries(Look(m, b1))| then b1 else b0
  }

  lemma EmptierIs(m: Mem, b0: int, b1: int)
    ensures Emptier(m, b0, b1) in {b0, b1}
    ensures |Entries(Look(m, Emptier(m, b0, b1)))| <= |Entries(Look(m, b0))| && |Entries(Look(m, Emptier(m, b0, b1)))| <= |Entries(Look(m, b1))|
    ensures |Entries(Look(m, b0))| == |Entries(Look(m, b1))| ==> Emptier(m, b0, b1) == b0
  {
  }

  /** An entry put into a registered bucket. */
  ghost function Inserting(s: Stage, b: int, e: Entry): Stage {
    if b in s.m.table then Stage(Stored(s.m, s.m.table[b], InsertedInto(Look(s.m, b), e)), s.made) else s
  }

  /** One entry rehashed. */
  ghost function EntryRehashed(s: Stage, g: Geometry, h: Hashes, e: Entry): Course {
    var (t0, t1) := Targets(g, h, e.key);
    var s1 := BothFetched(s, g.nextStart, t0, t1);
    var at := Emptier(s1.m, t0, t1);
    if IsFull(Look(s1.m, at)) then Course(InsertFailed, s1) else Course(Expanded, Inserting(s1, at, e))
  }

  /** The entries in the first n slots of x rehashed in turn. */
  ghost function SlotsRehashed(s: Stage, g: Geometry, h: Hashes, x: LevelBucket, n: nat): Course
    requires n <= ASSOC_NUM
  {
    if n == 0 then Course(Expanded, s)
    else
      var c := SlotsRehashed(s, g, h, x, n - 1);
      if c.outcome.Expanded? && x.token[n - 1] then EntryRehashed(c.stage, g, h, x.slots[n - 1]) else c
  }

  ghost predicate IsLost(m: Mem, f: int) {
    Shape(m) && IsFrame(f) && LosesMark(m, f)
  }

  /** The registered bucket at the floor split. */
  ghost function BucketSplit(s: Stage, g: Geometry, h: Hashes): Course {
    var f := if s.m.floor in s.m.table then s.m.table[s.m.floor] else -1;
    var c := SlotsRehashed(s, g, h, Look(s.m, s.m.floor), ASSOC_NUM);
    if !c.outcome.Expanded? then c
    else Course(if IsLost(c.stage.m, f) then MarkLost else Expanded, Stage(Retired(c.stage.m, f), c.stage.made))
  }

  /** The bucket at the floor brought into the cache. */
  ghost function BroughtIn(s: Stage, touchFirst: bool): Stage {
    var b := s.m.floor;
    if b !in s.m.table then Stage(Registered(Fetched(s.m, b), b, Victim(s.m.lists)), s.made)
    else if touchFirst then Stage(Touched(s.m, s.m.table[b]), s.made)
    else s
  }

  /** All buckets from b up to the top level split in turn. */
  ghost function AllSplit(s: Stage, g: Geometry, h: Hashes, touchFirst: bool, b: int): Course
    decreases g.tlStart - b
  {
    if b >= g.tlStart then Course(Expanded, s)
    else
      var c := BucketSplit(BroughtIn(s, touchFirst), g, h);
      if c.outcome.Expanded? then AllSplit(c.stage, g, h, touchFirst, b + 1) else c
  }

  /** The whole of the rehashing, from the state before the expansion. */
  ghost function Rehashed(m: Mem, g: Geometry, h: Hashes, touchFirst: bool): Course {
    var n := g.addr * 2;
    AllSplit(Stage(Extended(m, g.nextStart + n), if n >= 0 then seq(n, _ => false) else []), g, h, touchFirst, g.blStart)
  }

  lemma SlotsNone(s: Stage, g: Geometry, h: Hashes, x: LevelBucket)
    ensures SlotsRehashed(s, g, h, x, 0) == Course(Expanded, s)
  {
  }

  lemma AllSplitStep(s: Stage, g: Geometry, h: Hashes, touchFirst: bool, b: int)
    requires b < g.tlStart
    ensures var c := BucketSplit(BroughtIn(s, touchFirst), g, h);
      AllSplit(s, g, h, touchFirst, b) == if c.outcome.Expanded? then AllSplit(c.stage, g, h, touchFirst, b + 1) else c
  {
  }

  lemma AllSplitDone(s: Stage, g: Geometry, h: Hashes, touchFirst: bool)
    ensures AllSplit(s, g, h, touchFirst, g.tlStart) == Course(Expanded, s)
  {
  }

  lemma SlotsStep(s: Stage, g: Geometry, h: Hashes, x: LevelBucket, n: nat)
    requires n < ASSOC_NUM
    ensures SlotsRehashed(s, g, h, x, n).outcome.Expanded? ==>
      SlotsRehashed(s, g, h, x, n + 1) ==
        if x.token[n] then EntryRehashed(SlotsRehashed(s, g, h, x, n).stage, g, h, x.slots[n]) else SlotsRehashed(s, g, h, x, n)
  {
  }

  /** Once an insert has failed, it stays so. */
  lemma {:induction false} SlotsFail(s: Stage, g: Geometry, h: Hashes, x: LevelBucket, n: nat, k: nat)
    requires n <= k <= ASSOC_NUM && !SlotsRehashed(s, g, h, x, n).outcome.Expanded?
    ensures SlotsRehashed(s, g, h, x, k) == SlotsRehashed(s, g, h, x, n)
  {
    hide EntryRehashed;
    if n < k { SlotsFail(s, g, h, x, n, k - 1); }
  }

  // ---------- An input that loses a mark ----------

  /** A mark is lost whenever the cache is full, the bucket at the floor is in the frame unused for longest, and
      its only entry has a first target that is cached and not empty and a second one that is not constructed. */
  lemma MarkCanBeLost(s: Stage, g: Geometry, h: Hashes, x: LevelBucket, slot: nat, t0: int, t1: int, f: int)
    requires Coherent(s.m) && s.m.lists.free == [] && s.m.lists.lru != [] && f == s.m.lists.lru[|s.m.lists.lru| - 1]
    requires IsFrame(f) && s.m.floor in s.m.table && s.m.table[s.m.floor] == f && x == Look(s.m, s.m.floor) && slot < ASSOC_NUM
    requires (forall i :: 0 <= i < ASSOC_NUM ==> (x.token[i] <==> i == slot)) && Targets(g, h, x.slots[slot].key) == (t0, t1)
    requires t0 in s.m.table && t0 != s.m.floor && Entries(Look(s.m, t0)) != multiset{} && !Unused(g.nextStart, s.made, t0)
    requires Live(s.m, t1) && Unused(g.nextStart, s.made, t1) && Fresh(s.m, g.nextStart, s.made) && t1 != s.m.floor && t1 != t0
    ensures BucketSplit(s, g, h).outcome == MarkLost
  {
    hide Entries, Targets, SlotsRehashed, FrameSound, WellListed, Touch, Occupied, EntryRehashed;
    OnlySlot(s, g, h, x, slot, ASSOC_NUM);
    LossAt(s, g, h, x.slots[slot], t0, t1, f);
  }

  lemma {:induction false} OnlySlot(s: Stage, g: Geometry, h: Hashes, x: LevelBucket, slot: nat, n: nat)
    requires slot < ASSOC_NUM && n <= ASSOC_NUM && forall i :: 0 <= i < ASSOC_NUM ==> (x.token[i] <==> i == slot)
    ensures SlotsRehashed(s, g, h, x, n) == if n <= slot then Course(Expanded, s) else EntryRehashed(s, g, h, x.slots[slot])
  {
    hide EntryRehashed;
    if n > 0 { OnlySlot(s, g, h, x, slot, n - 1); }
  }

  lemma LossAt(s: Stage, g: Geometry, h: Hashes, e: Entry, t0: int, t1: int, f: int)
    requires Coherent(s.m) && s.m.lists.free == [] && s.m.lists.lru != [] && f == s.m.lists.lru[|s.m.lists.lru| - 1]
    requires IsFrame(f) && s.m.floor in s.m.table && s.m.table[s.m.floor] == f && Targets(g, h, e.key) == (t0, t1)
    requires t0 in s.m.table && t0 != s.m.floor && Entries(Look(s.m, t0)) != multiset{} && !Unused(g.nextStart, s.made, t0)
    requires Live(s.m, t1) && Unused(g.nextStart, s.made, t1) && Fresh(s.m, g.nextStart, s.made) && t1 != s.m.floor && t1 != t0
    ensures var c := EntryRehashed(s, g, h, e); c.outcome.Expanded? && IsLost(c.stage.m, f)
  {
    hide Entries, Targets, WellListed, FrameSound, Touch, Occupied;
    EmptyHasNoEntries();
    var m, f0 := s.m, s.m.table[t0];
    NotNamed(m, t1);
    assert IsFrame(f0) && m.lists.ids[f] == m.floor && m.lists.ids[f0] == t0 && f0 != f;
    StillLast(m.lists, f0, f);
    var m1 := Touched(m, f0);
    TakeClean(m1, t1, f);
    var s1, m2 := Stage(m1, s.made), Registered(Renewed(m1, t1), t1, f);
    assert Requested(s, g.nextStart, t0) == s1;
    assert Requested(s1, g.nextStart, t1).m == m2;
    assert t0 in m2.table && m2.table[t0] == f0 && t1 in m2.table && m2.table[t1] == f;
    assert BothFetched(s, g.nextStart, t0, t1).m == m2;
    assert Look(m2, t1) == EMPTY_BUCKET && Look(m2, t0) == Look(m, t0);
    NotEmpty(Entries(Look(m, t0)));
    assert Emptier(m2, t0, t1) == t1;
    InsertedInEmpty(e);
  }

  lemma NotEmpty(c: multiset<Entry>)
    requires c != multiset{}
    ensures |c| > 0
  {
  }

  lemma InsertedInEmpty(e: Entry)
    ensures !IsFull(EMPTY_BUCKET) && InsertedInto(EMPTY_BUCKET, e) != EMPTY_BUCKET
  {
    EmptyHasNoEntries();
    assert InsertedInto(EMPTY_BUCKET, e).token[0] && !EMPTY_BUCKET.token[0];
  }
}
