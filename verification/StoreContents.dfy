/**
 What the store holds: the multiset of live entries over all live buckets, where each entry sits,
 and what the begin and end of an expansion do to both.
 */
module StoreContents {
  import opened Basics
  import opened LevelBuckets
  import opened FrameLists
  import opened CachedStore
  import opened RangeSums

  // ---------- Sums over buckets ----------

  ghost function EntriesIn(m: Mem): int -> multiset<Entry> {
    b => Entries(Look(m, b))
  }

  /** The entries of live buckets from lo on. */
  ghost function ContentsFrom(m: Mem, lo: int): multiset<Entry> {
    SumOf(EntriesIn(m), lo, m.end)
  }

  ghost function Contents(m: Mem): multiset<Entry> {
    ContentsFrom(m, m.floor)
  }

  lemma SumSame(m: Mem, m': Mem, lo: int, hi: int)
    requires forall b :: lo <= b < hi ==> Look(m', b) == Look(m, b)
    ensures SumOf(EntriesIn(m'), lo, hi) == SumOf(EntriesIn(m), lo, hi)
  {
    SumOfSame(EntriesIn(m), EntriesIn(m'), lo, hi);
  }

  lemma ContentsFirst(m: Mem)
    requires Live(m, m.floor)
    ensures Contents(m) == Entries(Look(m, m.floor)) + ContentsFrom(m, m.floor + 1)
  {
    SumOfFirst(EntriesIn(m), m.floor, m.end);
  }

  lemma InContents(m: Mem, b: int, e: Entry)
    requires Live(m, b) && e in Entries(Look(m, b))
    ensures e in Contents(m)
  {
    SumOfMembers(EntriesIn(m), m.floor, m.end, e);
    assert e in EntriesIn(m)(b);
  }

  lemma ContentsIn(m: Mem, e: Entry) returns (b: int)
    requires e in Contents(m)
    ensures Live(m, b) && e in Entries(Look(m, b))
  {
    var f := EntriesIn(m);
    SumOfMembers(f, m.floor, m.end, e);
    b :| m.floor <= b < m.end && e in f(b);
  }

  lemma SameContents(m: Mem, m': Mem, lo: int)
    requires SameContent(m, m') && lo >= m.floor
    ensures ContentsFrom(m', lo) == ContentsFrom(m, lo)
  {
    SumSame(m, m', lo, m.end);
  }

  // ---------- Placement ----------

  /** For each key, the buckets a search for it looks in. */
  type Homes = (FixedKey, int) -> bool

  /** All entries of x may be in bucket b. */
  ghost predicate AtHome(x: LevelBucket, home: Homes, b: int) {
    forall e :: e in Entries(x) ==> home(e.key, b)
  }

  ghost predicate PlacedAt(m: Mem, home: Homes, b: int) {
    AtHome(Look(m, b), home, b)
  }

  /** Every entry is in a home of its key. */
  ghost predicate Placed(m: Mem, home: Homes) {
    forall b :: Live(m, b) ==> PlacedAt(m, home, b)
  }

  lemma SamePlaced(m: Mem, m': Mem, home: Homes)
    requires SameContent(m, m') && Placed(m, home)
    ensures Placed(m', home)
  {
    forall b | Live(m', b) ensures PlacedAt(m', home, b) { assert PlacedAt(m, home, b); }
  }

  lemma EntryLive(m: Mem, b: int, key: FixedKey)
    requires Live(m, b) && HasKey(Entries(Look(m, b)), key)
    ensures HasKey(Contents(m), key)
  {
    var e :| e in Entries(Look(m, b)) && e.key == key;
    InContents(m, b, e);
  }

  /** Bucket x reads differently, every other live bucket reads the same. */
  ghost predicate OnlyChanged(m: Mem, m': Mem, x: int) {
    && m'.floor == m.floor && m'.end == m.end
    && forall b :: Live(m, b) && b != x ==> Look(m', b) == Look(m, b)
  }

  lemma ChangedBounds(m: Mem, m': Mem, x: int)
    requires OnlyChanged(m, m', x)
    ensures m'.floor == m.floor && m'.end == m.end
  {
  }

  lemma ChangedElsewhere(m: Mem, m': Mem, x: int, b: int)
    requires OnlyChanged(m, m', x) && Live(m, b) && b != x
    ensures Look(m', b) == Look(m, b) && Live(m', b)
  {
  }

  lemma SameThenChanged(m: Mem, m1: Mem, m2: Mem, x: int)
    requires SameContent(m, m1) && OnlyChanged(m1, m2, x) && Live(m, x)
    ensures OnlyChanged(m, m2, x) && Look(m1, x) == Look(m, x)
  {
  }

  /** Rewriting one live bucket changes the contents by exactly that bucket's change. */
  lemma BucketChanged(m: Mem, m': Mem, x: int, lo: int)
    requires OnlyChanged(m, m', x) && Live(m, x) && m.floor <= lo <= x
    ensures ContentsFrom(m', lo) + Entries(Look(m, x)) == ContentsFrom(m, lo) + Entries(Look(m', x))
  {
    SumOfChanged(EntriesIn(m), EntriesIn(m'), x, lo, m.end);
  }

  lemma PlacedChanged(m: Mem, m': Mem, x: int, home: Homes)
    requires OnlyChanged(m, m', x) && Placed(m, home) && PlacedAt(m', home, x)
    ensures Placed(m', home)
  {
    forall b | Live(m', b) ensures PlacedAt(m', home, b) {
      if b != x { assert PlacedAt(m, home, b); }
    }
  }

  /** An entry added to a home of its key. */
  lemma EntryAdded(m: Mem, m': Mem, x: int, e: Entry, home: Homes, lo: int)
    requires OnlyChanged(m, m', x) && Live(m, x) && m.floor <= lo <= x && Placed(m, home)
    requires HoldsOneMore(Look(m, x), Look(m', x), e) && home(e.key, x)
    ensures ContentsFrom(m', lo) == ContentsFrom(m, lo) + multiset{e} && Placed(m', home)
  {
    BucketChanged(m, m', x, lo);
    Cancel(ContentsFrom(m', lo), ContentsFrom(m, lo), Entries(Look(m, x)), e);
    assert PlacedAt(m, home, x);
    PlacedChanged(m, m', x, home);
  }

  lemma Cancel(c': multiset<Entry>, c: multiset<Entry>, b: multiset<Entry>, e: Entry)
    requires c' + b == c + (b + multiset{e})
    ensures c' == c + multiset{e}
  {
    forall x ensures c'[x] == (c + multiset{e})[x] {
      assert (c' + b)[x] == c'[x] + b[x];
      assert (c + (b + multiset{e}))[x] == c[x] + (b[x] + multiset{e}[x]);
    }
  }

  /** An entry taken out of a bucket. */
  lemma EntryRemoved(m: Mem, m': Mem, x: int, e: Entry, home: Homes)
    requires OnlyChanged(m, m', x) && Live(m, x) && Placed(m, home)
    requires HoldsOneMore(Look(m', x), Look(m, x), e)
    ensures Contents(m) == Contents(m') + multiset{e} && Placed(m', home)
  {
    BucketChanged(m, m', x, m.floor);
    Cancel(Contents(m), Contents(m'), Entries(Look(m', x)), e);
    assert PlacedAt(m, home, x);
    PlacedChanged(m, m', x, home);
  }

  /** An entry moved from one bucket to another, and a new one put in its place. */
  lemma EntryMoved(m: Mem, m1: Mem, m2: Mem, src: int, dst: int, freed: LevelBucket, y: Entry, e: Entry, home: Homes)
    requires Placed(m, home) && src != dst && Live(m, src) && Live(m, dst)
    requires OnlyChanged(m, m1, dst) && HoldsOneMore(Look(m, dst), Look(m1, dst), y) && home(y.key, dst)
    requires OnlyChanged(m1, m2, src) && home(e.key, src)
    requires HoldsOneMore(freed, Look(m, src), y) && HoldsOneMore(freed, Look(m2, src), e)
    ensures Contents(m2) == Contents(m) + multiset{e} && Placed(m2, home)
  {
    hide Entries, Look, Placed;
    EntryAdded(m, m1, dst, y, home, m.floor);
    assert Look(m1, src) == Look(m, src);
    BucketChanged(m1, m2, src, m.floor);
    Replace(Contents(m2), Contents(m1), Contents(m), Entries(freed), y, e);
    StillAtHome(m1, m2, src, freed, y, e, home);
    PlacedChanged(m1, m2, src, home);
  }

  lemma StillAtHome(m: Mem, m': Mem, b: int, freed: LevelBucket, y: Entry, e: Entry, home: Homes)
    requires Placed(m, home) && Live(m, b) && home(e.key, b)
    requires HoldsOneMore(freed, Look(m, b), y) && HoldsOneMore(freed, Look(m', b), e)
    ensures PlacedAt(m', home, b)
  {
    hide Look;
    assert PlacedAt(m, home, b);
  }

  lemma Replace(c2: multiset<Entry>, c1: multiset<Entry>, c: multiset<Entry>, b: multiset<Entry>, y: Entry, e: Entry)
    requires c1 == c + multiset{y} && c2 + (b + multiset{y}) == c1 + (b + multiset{e})
    ensures c2 == c + multiset{e}
  {
    forall x ensures c2[x] == (c + multiset{e})[x] {
      assert (c2 + (b + multiset{y}))[x] == c2[x] + (b[x] + multiset{y}[x]);
      assert (c1 + (b + multiset{e}))[x] == (c[x] + multiset{y}[x]) + (b[x] + multiset{e}[x]);
    }
  }

  // ---------- The empty store ----------

  /** Every frame free, nothing registered, all host memory zero. */
  ghost predicate Pristine(m: Mem) {
    && 0 <= m.floor && |m.frames| == |m.dirty| == |m.lists.ids| == CACHE_SIZE == |m.lists.free|
    && (forall b :: Live(m, b) ==> b in m.host && m.host[b] == EMPTY_BUCKET)
    && (forall f :: IsFrame(f) ==> !m.dirty[f] && m.lists.ids[f] == -1 && m.lists.free[f] == f)
    && m.table == map[] && m.lists.lru == [] && m.end >= 0
  }

  lemma PristineCoherent(m: Mem)
    requires Pristine(m)
    ensures Coherent(m) && Quiet(m)
  {
    var s := m.lists;
    assert forall i :: 0 <= i < |s.free| ==> s.free[i] == i;
    assert forall f :: IsFrame(f) ==> s.free[f] == f;
    assert WellListed(s);
  }

  lemma PristineContents(m: Mem, home: Homes)
    requires m.table == map[] && forall b :: Live(m, b) ==> b in m.host && m.host[b] == EMPTY_BUCKET
    ensures Contents(m) == multiset{} && Placed(m, home)
  {
    EmptyHasNoEntries();
    var f := EntriesIn(m);
    forall b | m.floor <= b < m.end ensures f(b) == multiset{} { assert Live(m, b) && Look(m, b) == EMPTY_BUCKET; }
    SumOfEmpty(f, m.floor, m.end);
    forall b | Live(m, b) ensures PlacedAt(m, home, b) { assert Look(m, b) == EMPTY_BUCKET; }
  }

  // ---------- Expansion ----------

  /** Zeroed memory has been added for the buckets up to end'. */
  ghost function Extended(m: Mem, end': int): Mem {
    Mem(m.floor, end', m.host + ZeroMemory(m.end, end'), m.frames, m.dirty, m.table, m.lists)
  }

  lemma ExtendedBounds(m: Mem, end': int)
    ensures Extended(m, end').floor == m.floor && Extended(m, end').end == end'
    ensures Extended(m, end').table == m.table
  {
  }

  lemma ExtendContent(m: Mem, end': int, b: int)
    requires Coherent(m) && m.end <= end' && m.floor <= m.end
    ensures Live(m, b) ==> Look(Extended(m, end'), b) == Look(m, b) && HostOf(Extended(m, end'), b) == HostOf(m, b)
    ensures m.end <= b < end' ==> Look(Extended(m, end'), b) == EMPTY_BUCKET && Untouched(Extended(m, end'), b)
  {
    if m.end <= b < end' {
      assert b !in m.table;
    }
  }

  lemma ExtendCoherent(m: Mem, end': int)
    requires Coherent(m) && m.floor <= m.end <= end'
    ensures Coherent(Extended(m, end')) && (Quiet(m) ==> Quiet(Extended(m, end')))
  {
    var m' := Extended(m, end');
    forall f | IsFrame(f) ensures FrameSound(m', f) {
      assert FrameSound(m, f);
      ExtendContent(m, end', m.lists.ids[f]);
    }
  }

  lemma ExtendContents(m: Mem, end': int)
    requires Coherent(m) && m.floor <= m.end <= end'
    ensures Contents(Extended(m, end')) == Contents(m)
  {
    var m' := Extended(m, end');
    SumOfSplit(EntriesIn(m'), m.floor, m.end, end');
    forall b | m.floor <= b < m.end ensures Look(m', b) == Look(m, b) { ExtendContent(m, end', b); }
    SumSame(m, m', m.floor, m.end);
    var f := EntriesIn(m');
    forall b | m.end <= b < end' ensures f(b) == multiset{} {
      ExtendContent(m, end', b);
      EmptyHasNoEntries();
    }
    SumOfEmpty(f, m.end, end');
  }

  /** Beginning an expansion adds empty buckets and nothing else. */
  lemma ExtendKeeps(m: Mem, end': int, home: Homes, constructed: seq<bool>)
    requires Coherent(m) && m.floor <= m.end <= end' && Placed(m, home) && |constructed| == end' - m.end
    ensures Coherent(Extended(m, end')) && (Quiet(m) ==> Quiet(Extended(m, end')))
    ensures Contents(Extended(m, end')) == Contents(m) && Placed(Extended(m, end'), home)
    ensures Fresh(Extended(m, end'), m.end, constructed)
  {
    var m' := Extended(m, end');
    ExtendCoherent(m, end');
    ExtendContents(m, end');
    EmptyHasNoEntries();
    forall b | Live(m', b) ensures PlacedAt(m', home, b) {
      ExtendContent(m, end', b);
      if b < m.end { assert PlacedAt(m, home, b); }
    }
    forall b | m.end <= b < end' ensures Untouched(m', b) { ExtendContent(m, end', b); }
  }

  /** Bucket `floor` has been emptied into the next level: it is dead, and its frame may be dropped unwritten. */
  ghost function Retired(m: Mem, f: int): Mem {
    Mem(m.floor + 1, m.end, m.host, m.frames, Put(m.dirty, f, false), m.table, m.lists)
  }

  /** Clearing the mark on frame f would lose something: another bucket is in it by now, written to since. */
  ghost predicate LosesMark(m: Mem, f: int)
    requires Shape(m) && IsFrame(f)
  {
    m.lists.ids[f] != m.floor && m.dirty[f] && m.frames[f] != HostOf(m, m.lists.ids[f])
  }

  /** Dropping the bucket at the floor by clearing the mark of frame f breaks the cache exactly when that mark
      is not the bucket's own and is needed. */
  lemma RetireExactly(m: Mem, f: int)
    requires Coherent(m) && IsFrame(f)
    requires m.lists.ids[f] == m.floor || forall k :: IsFrame(k) ==> m.lists.ids[k] != m.floor
    ensures Coherent(Retired(m, f)) <==> !LosesMark(m, f)
    ensures Quiet(m) ==> Quiet(Retired(m, f))
  {
    var m' := Retired(m, f);
    assert Shape(m') && FrameSound(m, f);
    forall k | IsFrame(k) && k != f ensures FrameSound(m', k) {
      assert FrameSound(m, k);
      if m.lists.ids[f] == m.floor { assert m.lists.ids[k] != m.lists.ids[f]; }
    }
  }

  lemma RetireContents(m: Mem, f: int, home: Homes)
    requires Placed(m, home)
    ensures Placed(Retired(m, f), home) && Contents(Retired(m, f)) == ContentsFrom(m, m.floor + 1)
  {
    var m' := Retired(m, f);
    forall b ensures Look(m', b) == Look(m, b) {}
    SumSame(m, m', m.floor + 1, m.end);
    forall b | Live(m', b) ensures PlacedAt(m', home, b) { assert PlacedAt(m, home, b); }
  }

  /** The buckets from lo on have the same content. */
  ghost predicate SameFrom(m: Mem, m': Mem, lo: int) {
    m'.end == m.end && forall b :: lo <= b < m.end ==> Look(m', b) == Look(m, b)
  }

  lemma SameFromRefl(m: Mem, lo: int)
    ensures SameFrom(m, m, lo)
  {
  }

  /** Bringing in a bucket and splitting it. */
  lemma SameFromSteps(m0: Mem, m1: Mem, m2: Mem, m3: Mem, b: int)
    requires SameFrom(m0, m1, b) && SameContent(m1, m2) && m1.floor <= b && SameFrom(m2, m3, b + 1)
    ensures SameFrom(m0, m3, b + 1)
  {
  }

  lemma SameFromContents(m: Mem, m': Mem, lo: int)
    requires SameFrom(m, m', lo)
    ensures ContentsFrom(m', lo) == ContentsFrom(m, lo)
  {
    SumSame(m, m', lo, m.end);
  }

  lemma RetiredSameFrom(m0: Mem, m: Mem, f: int)
    requires SameContent(m0, m)
    ensures SameFrom(m0, Retired(m, f), m.floor + 1)
  {
    forall b | Live(m0, b) ensures Look(Retired(m, f), b) == Look(m0, b) {}
  }

  /** Where nothing has been written, the only mark that can be cleared is the bucket's own. */
  lemma NothingToLose(m0: Mem, m: Mem, f: int)
    requires Shape(m) && IsFrame(f) && NoNewDirt(m0, m) && m0.lists.ids[f] == m.floor
    ensures !LosesMark(m, f)
  {
  }

  /** The dead buckets' memory is gone. */
  ghost function Committed(m: Mem): Mem {
    Mem(m.floor, m.end, map b | b in m.host && b >= m.floor :: m.host[b], m.frames, m.dirty, m.table, m.lists)
  }

  /** Ending an expansion moves nothing. */
  lemma CommitKeeps(m: Mem)
    requires Coherent(m)
    ensures Coherent(Committed(m)) && SameContent(m, Committed(m)) && (Quiet(m) ==> Quiet(Committed(m)))
  {
    var m' := Committed(m);
    forall f | IsFrame(f) ensures FrameSound(m', f) { assert FrameSound(m, f); }
  }

  /** Every placed entry still has its home under `home'`. */
  lemma PlacedImplies(m: Mem, home: Homes, home': Homes)
    requires Placed(m, home)
    requires forall key, b :: Live(m, b) && home(key, b) ==> home'(key, b)
    ensures Placed(m, home')
  {
    forall b | Live(m, b) ensures PlacedAt(m, home', b) { assert PlacedAt(m, home, b); }
  }
}
