/**
 Buckets of the level hash table: four slots, each guarded by a token.

 A bucket is plain memory. It is copied bytewise between host memory and a cache
 frame, and by value when a bucket is split, so it is modelled as a value; the slot
 operations are loops that yield the updated bucket and dirty flag.
 */
module LevelBuckets {
  import opened Basics
  import opened RangeSums

  const ASSOC_NUM: nat := 4
  const BUCKET_BYTES: nat := 128

  /** A 16-byte key and a 15-byte value, read as numbers; nothing here depends on their range. */
  type FixedKey = int
  type FixedValue = int

  datatype Entry = Entry(key: FixedKey, value: FixedValue)

  /** token[i] holds exactly when the token byte of slot i is 1 (it is only ever 0 or 1). */
  datatype RawBucket = RawBucket(token: seq<bool>, slots: seq<Entry>)

  type LevelBucket = b: RawBucket | |b.token| == ASSOC_NUM && |b.slots| == ASSOC_NUM
    witness RawBucket([false, false, false, false], [Entry(0, 0), Entry(0, 0), Entry(0, 0), Entry(0, 0)])

  /** Zeroed memory. */
  const EMPTY_BUCKET: LevelBucket :=
    RawBucket([false, false, false, false], [Entry(0, 0), Entry(0, 0), Entry(0, 0), Entry(0, 0)])

  function Zeroed(b: int): LevelBucket {
    EMPTY_BUCKET
  }

  /** Zeroed memory for the buckets lo..hi-1. */
  ghost function ZeroMemory(lo: int, hi: int): map<int, LevelBucket> {
    map b: int | lo <= b < hi :: Zeroed(b)
  }

  /** The entry a slot contributes: nothing unless its token is set. */
  ghost function SlotEntry(b: LevelBucket): int -> multiset<Entry> {
    i => if 0 <= i < ASSOC_NUM && b.token[i] then multiset{b.slots[i]} else multiset{}
  }

  /** The live entries of a bucket. */
  ghost function Entries(b: LevelBucket): multiset<Entry> {
    SumOf(SlotEntry(b), 0, ASSOC_NUM)
  }

  ghost predicate HasKey(m: multiset<Entry>, key: FixedKey) {
    exists e :: e in m && e.key == key
  }

  ghost predicate IsFull(b: LevelBucket) {
    |Entries(b)| == ASSOC_NUM
  }

  /** Clearing and filling one slot. */
  function FreeSlot(b: LevelBucket, i: nat): LevelBucket
    requires i < ASSOC_NUM
  {
    RawBucket(b.token[i := false], b.slots)
  }

  function FillSlot(b: LevelBucket, i: nat, e: Entry): LevelBucket
    requires i < ASSOC_NUM
  {
    RawBucket(b.token[i := true], b.slots[i := e])
  }

  /** The first slot without a token; ASSOC_NUM if there is none. */
  function FirstFree(b: LevelBucket): (i: nat)
    ensures i <= ASSOC_NUM && (i < ASSOC_NUM ==> !b.token[i]) && forall j: nat :: j < i ==> b.token[j]
  {
    if !b.token[0] then 0 else if !b.token[1] then 1 else if !b.token[2] then 2 else if !b.token[3] then 3 else 4
  }

  /** The bucket with the entry in its first free slot; unchanged if it is full. */
  function InsertedInto(b: LevelBucket, e: Entry): LevelBucket {
    if FirstFree(b) < ASSOC_NUM then FillSlot(b, FirstFree(b), e) else b
  }

  /** Bucket c holds what b holds and e besides. */
  ghost predicate HoldsOneMore(b: LevelBucket, c: LevelBucket, e: Entry) {
    Entries(c) == Entries(b) + multiset{e}
  }

  lemma SlotIsEntry(b: LevelBucket, i: nat)
    requires i < ASSOC_NUM && b.token[i]
    ensures b.slots[i] in Entries(b)
  {
    SumOfMembers(SlotEntry(b), 0, ASSOC_NUM, b.slots[i]);
    assert b.slots[i] in SlotEntry(b)(i);
  }

  lemma EntryHasSlot(b: LevelBucket, e: Entry) returns (i: nat)
    requires e in Entries(b)
    ensures i < ASSOC_NUM && b.token[i] && b.slots[i] == e
  {
    SumOfMembers(SlotEntry(b), 0, ASSOC_NUM, e);
    i :| 0 <= i < ASSOC_NUM && e in SlotEntry(b)(i);
  }

  lemma KeyNowhere(b: LevelBucket, key: FixedKey)
    requires forall i: nat :: i < ASSOC_NUM ==> !(b.token[i] && b.slots[i].key == key)
    ensures !HasKey(Entries(b), key)
  {
    forall e | e in Entries(b) ensures e.key != key { var i := EntryHasSlot(b, e); }
  }

  lemma SlotFreed(b: LevelBucket, i: nat)
    requires i < ASSOC_NUM && b.token[i]
    ensures HoldsOneMore(FreeSlot(b, i), b, b.slots[i])
  {
    var c: LevelBucket := FreeSlot(b, i);
    SumOfChanged(SlotEntry(b), SlotEntry(c), i, 0, ASSOC_NUM);
    assert SlotEntry(b)(i) == multiset{b.slots[i]} && SlotEntry(c)(i) == multiset{};
  }

  lemma SlotFilled(b: LevelBucket, i: nat, e: Entry)
    requires i < ASSOC_NUM && !b.token[i]
    ensures HoldsOneMore(b, FillSlot(b, i, e), e)
  {
    var c: LevelBucket := FillSlot(b, i, e);
    SumOfChanged(SlotEntry(b), SlotEntry(c), i, 0, ASSOC_NUM);
    assert SlotEntry(c)(i) == multiset{e} && SlotEntry(b)(i) == multiset{};
  }

  lemma EmptyHasNoEntries()
    ensures Entries(EMPTY_BUCKET) == multiset{}
  {
    SumOfEmpty(SlotEntry(EMPTY_BUCKET), 0, ASSOC_NUM);
  }

  /** A bucket is full exactly when every token is set. */
  lemma FullTokens(b: LevelBucket)
    ensures |Entries(b)| <= ASSOC_NUM
    ensures IsFull(b) <==> forall i: nat :: i < ASSOC_NUM ==> b.token[i]
  {
    var f := SlotEntry(b);
    forall i | 0 <= i < ASSOC_NUM ensures |f(i)| == if b.token[i] then 1 else 0 {}
    SumOfSize(f, 0, ASSOC_NUM);
  }

  method SearchSlot(b: LevelBucket, key: FixedKey) returns (r: Option<FixedValue>)
    ensures r.Some? <==> HasKey(Entries(b), key)
    ensures r.Some? ==> Entry(key, r.value) in Entries(b)
  {
    for i := 0 to ASSOC_NUM
      invariant forall j: nat :: j < i ==> !(b.token[j] && b.slots[j].key == key)
    {
      if b.token[i] && b.slots[i].key == key {
        SlotIsEntry(b, i);
        return Some(b.slots[i].value);
      }
    }
    KeyNowhere(b, key);
    return None;
  }

  /** A slot is freed exactly when the key is live; the entry it held is the one removed. */
  method DeleteSlot(b: LevelBucket, key: FixedKey, dirty: bool) returns (c: LevelBucket, dirty': bool, found: bool, ghost gone: Entry)
    ensures found <==> HasKey(Entries(b), key)
    ensures found ==> dirty' && gone.key == key && HoldsOneMore(c, b, gone)
    ensures !found ==> c == b && dirty' == dirty
  {
    gone := Entry(key, 0);
    for i := 0 to ASSOC_NUM
      invariant forall j: nat :: j < i ==> !(b.token[j] && b.slots[j].key == key)
    {
      if b.token[i] && b.slots[i].key == key {
        gone := b.slots[i];
        SlotFreed(b, i);
        SlotIsEntry(b, i);
        c := FreeSlot(b, i);
        return c, true, true, gone;
      }
    }
    KeyNowhere(b, key);
    return b, dirty, false, gone;
  }

  /** The entry goes into the first slot without a token; only a full bucket refuses it. */
  method InsertSlot(b: LevelBucket, e: Entry, dirty: bool) returns (c: LevelBucket, dirty': bool, ok: bool)
    ensures ok <==> !IsFull(b)
    ensures ok ==> dirty' && HoldsOneMore(b, c, e) && c == InsertedInto(b, e)
    ensures !ok ==> c == b && dirty' == dirty
  {
    hide FillSlot, IsFull, HoldsOneMore;
    for i := 0 to ASSOC_NUM
      invariant forall j: nat :: j < i ==> b.token[j]
    {
      if !b.token[i] {
        assert FirstFree(b) == i;
        c := FillSlot(b, i, e);
        SlotFilled(b, i, e);
        FullTokens(b);
        return c, true, true;
      }
    }
    FullTokens(b);
    return b, dirty, false;
  }

  method Count(b: LevelBucket) returns (c: nat)
    ensures c == |Entries(b)|
  {
    c := 0;
    for i := 0 to ASSOC_NUM
      invariant c == |SumOf(SlotEntry(b), 0, i)|
    {
      if b.token[i] {
        c := c + 1;
      }
      assert SumOf(SlotEntry(b), 0, i + 1) == SumOf(SlotEntry(b), 0, i) + SlotEntry(b)(i);
    }
  }
}
