/**
 Where buckets live: the numbering of the two levels, the candidate buckets of a key,
 and the host memory slice (one per DMA client) that holds each bucket.
 */
module LevelGeometry {
  import opened LevelBuckets

  const THREADS: nat := 8
  const HALF: nat := 4  // THREADS / 2

  function Pow2(n: nat): (r: nat)
    ensures r >= 1
  {
    if n == 0 then 1 else 2 * Pow2(n - 1)
  }

  /** The level parameters both sides keep; bucket ids run through bottom, top and next level. */
  datatype Geometry = Geometry(level: nat, addr: nat, bl: nat, blStart: int, tlStart: int, nextStart: int)

  ghost predicate ValidGeometry(g: Geometry) {
    && g.level >= 3
    && g.addr == Pow2(g.level)
    && g.bl == Pow2(g.level - 1)
    && g.blStart == g.bl - 4
    && g.tlStart == g.addr - 4
    && g.nextStart == 2 * g.addr - 4
  }

  function InitialGeometry(level: nat): (g: Geometry)
    requires level >= 3
    ensures ValidGeometry(g)
  {
    Geometry(level, Pow2(level), Pow2(level - 1), Pow2(level - 1) - 4, Pow2(level) - 4, Pow2(level + 1) - 4)
  }

  /** The parameter update at the end of an expansion. */
  function Grown(g: Geometry): (g': Geometry) {
    Geometry(g.level + 1, g.addr * 2, g.bl * 2, g.tlStart, g.nextStart, g.nextStart + g.addr * 2)
  }

  lemma GrownIsInitial(level: nat)
    requires level >= 3
    ensures Grown(InitialGeometry(level)) == InitialGeometry(level + 1)
  {
  }

  lemma GrownValid(g: Geometry)
    requires ValidGeometry(g)
    ensures ValidGeometry(Grown(g))
  {
    GrownIsInitial(g.level);
    assert g == InitialGeometry(g.level);
  }

  lemma Pow2Steps(n: nat)
    ensures Pow2(n + 3) == 2 * Pow2(n + 2) && Pow2(n + 2) == 4 * Pow2(n)
  {
    assert Pow2(n + 2) == 2 * Pow2(n + 1);
    assert Pow2(n + 1) == 2 * Pow2(n);
  }

  /** The arithmetic every later proof uses: the levels abut, and slices divide evenly. */
  lemma GeometryFacts(g: Geometry)
    requires ValidGeometry(g)
    ensures g.addr == 2 * g.bl && g.bl >= 4 && g.bl % HALF == 0
    ensures 0 <= g.blStart && g.tlStart == g.blStart + g.bl && g.nextStart == g.tlStart + g.addr
  {
    Pow2Steps(g.level - 3);
  }

  // ---------- Candidate buckets ----------

  /** Two candidates in the top level, two in the bottom level. */
  function Get4Buckets(g: Geometry, hash1: nat, hash2: nat): (bs: seq<int>)
    requires g.addr >= 4
    ensures |bs| == 4
  {
    var idx1 := hash1 % (g.addr / 2);
    var idx2 := g.addr / 2 + hash2 % (g.addr / 2);
    var idx3 := hash1 % (g.addr / 4);
    var idx4 := g.addr / 4 + hash2 % (g.addr / 4);
    [g.addr - 4 + idx1, g.addr - 4 + idx2, g.bl - 4 + idx3, g.bl - 4 + idx4]
  }

  /** The two buckets of the next level a key is rehashed into. */
  function ExpandBuckets(g: Geometry, hash1: nat, hash2: nat): (bs: (int, int))
    requires g.addr >= 1
  {
    (g.tlStart + g.addr + hash1 % g.addr, g.tlStart + g.addr * 2 + hash2 % g.addr)
  }

  /** The four candidates are pairwise distinct; the first two are top-level, the last two bottom-level. */
  lemma CandidatesPlaced(g: Geometry, hash1: nat, hash2: nat)
    requires ValidGeometry(g)
    ensures g.addr >= 4
    ensures var bs := Get4Buckets(g, hash1, hash2);
      && g.tlStart <= bs[0] < g.tlStart + g.bl <= bs[1] < g.nextStart
      && g.blStart <= bs[2] < g.blStart + g.bl / 2 <= bs[3] < g.tlStart
  {
    GeometryFacts(g);
  }

  /** Where the candidates of a key are: the first hash alone decides the first and the third, the second hash the
      others, each as its remainder within a half of a level. */
  lemma CandidatesAre(g: Geometry, hash1: nat, hash2: nat)
    requires ValidGeometry(g)
    ensures g.addr >= 4
    ensures var bs := Get4Buckets(g, hash1, hash2);
      && bs[0] - g.tlStart == hash1 % g.bl && bs[1] - (g.tlStart + g.bl) == hash2 % g.bl
      && bs[2] - g.blStart == hash1 % (g.bl / 2) && bs[3] - (g.blStart + g.bl / 2) == hash2 % (g.bl / 2)
  {
    GeometryFacts(g);
    hide ValidGeometry;
    assert g.addr / 2 == g.bl && g.addr / 4 == g.bl / 2;
  }

  /** Which keys share a candidate. */
  lemma SharedCandidates(g: Geometry, a1: nat, a2: nat, b1: nat, b2: nat)
    requires ValidGeometry(g)
    ensures g.addr >= 4
    ensures var a, b := Get4Buckets(g, a1, a2), Get4Buckets(g, b1, b2);
      && (a[0] == b[0] <==> a1 % (g.addr / 2) == b1 % (g.addr / 2)) && (a[1] == b[1] <==> a2 % (g.addr / 2) == b2 % (g.addr / 2))
      && (a[2] == b[2] <==> a1 % (g.addr / 4) == b1 % (g.addr / 4)) && (a[3] == b[3] <==> a2 % (g.addr / 4) == b2 % (g.addr / 4))
  {
    GeometryFacts(g);
  }

  /** Which keys share a rehash target. */
  lemma SharedTargets(g: Geometry, a1: nat, a2: nat, b1: nat, b2: nat)
    requires ValidGeometry(g)
    ensures g.addr >= 4
    ensures var a, b := ExpandBuckets(g, a1, a2), ExpandBuckets(g, b1, b2);
      (a.0 == b.0 <==> a1 % g.addr == b1 % g.addr) && (a.1 == b.1 <==> a2 % g.addr == b2 % g.addr)
  {
    GeometryFacts(g);
  }

  /** Every bucket of both levels is a candidate of some key. */
  lemma CandidatesCover(g: Geometry, b: int) returns (hash: nat, i: nat)
    requires ValidGeometry(g) && g.blStart <= b < g.nextStart
    ensures g.addr >= 4 && i < 4 && Get4Buckets(g, hash, hash)[i] == b
  {
    GeometryFacts(g);
    var n := g.bl;
    assert n / 2 * 2 == n;
    if b < g.blStart + n / 2 { hash, i := b - g.blStart, 2; }
    else if b < g.tlStart { hash, i := b - (g.blStart + n / 2), 3; }
    else if b < g.tlStart + n { hash, i := b - g.tlStart, 0; }
    else { hash, i := b - (g.tlStart + n), 1; }
    CandidatesAre(g, hash, hash);
    Small(hash, n);
    Small(hash, n / 2);
  }

  lemma Small(a: nat, n: nat)
    requires n > 0
    ensures a < n ==> a % n == a
  {
  }

  /** What makes reuse in place correct: for every hash, the old top candidates are the new bottom
      candidates and the rehash targets are the new top candidates. */
  lemma ExpansionKeepsCandidates(g: Geometry, hash1: nat, hash2: nat)
    requires ValidGeometry(g)
    ensures g.addr >= 4
    ensures var old4, new4 := Get4Buckets(g, hash1, hash2), Get4Buckets(Grown(g), hash1, hash2);
      && new4[2] == old4[0] && new4[3] == old4[1]
      && ExpandBuckets(g, hash1, hash2) == (new4[0], new4[1])
  {
    GeometryFacts(g);
    hide ValidGeometry;
    var n := g.bl;
    assert g.addr / 2 == n && g.addr * 2 / 4 == n && g.addr * 2 / 2 == 2 * n;
  }

  // ---------- Host memory slices ----------

  type HostMemory = seq<seq<LevelBucket>>

  /** Buckets per slice: client c serves a quarter of the bottom, top or next level. */
  function SliceLength(g: Geometry, c: nat): nat {
    if c < HALF then g.bl / HALF else if c < THREADS then g.addr / HALF else g.addr * 2 / HALF
  }

  ghost predicate HostShape(g: Geometry, host: HostMemory) {
    && (|host| == THREADS || |host| == THREADS + HALF)
    && forall c: nat :: c < |host| ==> |host[c]| == SliceLength(g, c)
  }

  /** One past the last bucket id that memory exists for; an extra half of the slices means rehashing. */
  function LiveEnd(g: Geometry, clients: nat): int {
    if clients == THREADS then g.nextStart else g.nextStart + g.addr * 2
  }

  /** Bucket k of a level cut into slices of `size` buckets, the first one served by client `first`. */
  function SlotIn(k: nat, size: nat, first: nat): (r: (nat, nat))
    requires size >= 1
  {
    (k / size + first, (k % size) * BUCKET_BYTES)
  }

  /** DMA client and byte offset of a bucket. */
  function ClientBucket(g: Geometry, bucket: int): (r: (nat, nat))
    requires g.bl >= HALF && g.addr >= HALF && bucket >= g.blStart && g.tlStart + g.addr == g.nextStart
  {
    if bucket < g.tlStart then SlotIn(bucket - g.blStart, g.bl / HALF, 0)
    else if bucket < g.tlStart + g.addr then SlotIn(bucket - g.tlStart, g.addr / HALF, HALF)
    else SlotIn(bucket - g.nextStart, g.addr * 2 / HALF, THREADS)
  }

  lemma SlotInShifts(k: nat, size: nat, first: nat)
    requires size >= 1
    ensures SlotIn(k, size, first + HALF) == (SlotIn(k, size, first).0 + HALF, SlotIn(k, size, first).1)
  {
  }

  lemma Quarter(k: nat, size: nat)
    requires size >= 1 && k < HALF * size
    ensures 0 <= k / size < HALF && 0 <= k % size < size && k == (k / size) * size + k % size
    ensures (k % size) * BUCKET_BYTES % BUCKET_BYTES == 0 && (k % size) * BUCKET_BYTES / BUCKET_BYTES == k % size
    ensures (k / size) * size * BUCKET_BYTES + (k % size) * BUCKET_BYTES == k * BUCKET_BYTES
  {
    assert (k / size) * size <= k;
    MulCancel(k / size, HALF, size);
  }

  lemma MulCancel(a: nat, b: nat, c: nat)
    requires a * c < b * c
    ensures a < b
  {
  }

  /** First bucket id of the level that client c serves, and the client that serves its first slice. */
  function LevelStart(g: Geometry, c: nat): int {
    if c < HALF then g.blStart else if c < THREADS then g.tlStart else g.nextStart
  }

  function FirstClient(c: nat): nat {
    if c < HALF then 0 else if c < THREADS then HALF else THREADS
  }

  /** Byte position of client c's slice in the host's table for its level. */
  function SliceBase(g: Geometry, c: nat): int {
    (c - FirstClient(c)) * SliceLength(g, c) * BUCKET_BYTES
  }

  /** A live bucket is addressed inside a slice that exists, on a bucket boundary, and slice base plus
      offset is exactly the byte position of that bucket in the host's table for its level. */
  lemma ClientBucketExact(g: Geometry, clients: nat, bucket: int)
    requires ValidGeometry(g) && (clients == THREADS || clients == THREADS + HALF)
    requires g.blStart <= bucket < LiveEnd(g, clients)
    ensures g.bl >= HALF && g.addr >= HALF && g.tlStart + g.addr == g.nextStart
    ensures var (c, o) := ClientBucket(g, bucket);
      && c < clients
      && o % BUCKET_BYTES == 0 && o / BUCKET_BYTES < SliceLength(g, c)
      && SliceBase(g, c) + o == (bucket - LevelStart(g, c)) * BUCKET_BYTES
  {
    GeometryFacts(g);
    if bucket < g.tlStart {
      BottomSlot(g, bucket);
    } else if bucket < g.nextStart {
      TopSlot(g, bucket);
    } else {
      NextSlot(g, bucket);
    }
  }

  lemma BottomSlot(g: Geometry, bucket: int)
    requires g.bl % HALF == 0 && g.bl >= HALF && g.addr >= HALF && g.tlStart + g.addr == g.nextStart
    requires g.blStart <= bucket < g.tlStart == g.blStart + g.bl
    ensures var (c, o) := ClientBucket(g, bucket);
      && c < HALF && o % BUCKET_BYTES == 0 && o / BUCKET_BYTES < SliceLength(g, c)
      && SliceBase(g, c) + o == (bucket - LevelStart(g, c)) * BUCKET_BYTES
  {
    SliceSlot(g, bucket - g.blStart, g.bl / HALF, 0);
  }

  lemma TopSlot(g: Geometry, bucket: int)
    requires g.addr % HALF == 0 && g.bl >= HALF && g.addr >= HALF && g.tlStart + g.addr == g.nextStart
    requires g.blStart <= g.tlStart <= bucket < g.nextStart
    ensures var (c, o) := ClientBucket(g, bucket);
      && HALF <= c < THREADS && o % BUCKET_BYTES == 0 && o / BUCKET_BYTES < SliceLength(g, c)
      && SliceBase(g, c) + o == (bucket - LevelStart(g, c)) * BUCKET_BYTES
  {
    SliceSlot(g, bucket - g.tlStart, g.addr / HALF, HALF);
  }

  lemma NextSlot(g: Geometry, bucket: int)
    requires g.addr * 2 % HALF == 0 && g.bl >= HALF && g.addr >= HALF && g.tlStart + g.addr == g.nextStart
    requires g.blStart <= g.tlStart && g.nextStart <= bucket < g.nextStart + g.addr * 2
    ensures var (c, o) := ClientBucket(g, bucket);
      && THREADS <= c < THREADS + HALF && o % BUCKET_BYTES == 0 && o / BUCKET_BYTES < SliceLength(g, c)
      && SliceBase(g, c) + o == (bucket - LevelStart(g, c)) * BUCKET_BYTES
  {
    SliceSlot(g, bucket - g.nextStart, g.addr * 2 / HALF, THREADS);
  }

  lemma SliceSlot(g: Geometry, k: nat, size: nat, first: nat)
    requires first in {0, HALF, THREADS} && size == SliceLength(g, first)
    requires size >= 1 && k < HALF * size
    ensures var c, o := k / size + first, (k % size) * BUCKET_BYTES;
      && first <= c < first + HALF
      && SliceLength(g, c) == size && FirstClient(c) == first && LevelStart(g, c) == LevelStart(g, first)
      && o % BUCKET_BYTES == 0 && o / BUCKET_BYTES < size
      && SliceBase(g, c) + o == k * BUCKET_BYTES
  {
    Quarter(k, size);
    var c := k / size + first;
    assert c - FirstClient(c) == k / size;
  }

  /** Distinct live buckets never share an address. */
  lemma ClientBucketInjective(g: Geometry, clients: nat, a: int, b: int)
    requires ValidGeometry(g) && (clients == THREADS || clients == THREADS + HALF)
    requires g.blStart <= a < LiveEnd(g, clients) && g.blStart <= b < LiveEnd(g, clients)
    ensures g.bl >= HALF && g.addr >= HALF && g.tlStart + g.addr == g.nextStart
    ensures ClientBucket(g, a) == ClientBucket(g, b) ==> a == b
  {
    ClientBucketExact(g, clients, a);
    ClientBucketExact(g, clients, b);
  }

  /** After an expansion every surviving bucket keeps its offset, one half of the clients further down. */
  lemma ClientBucketShifts(g: Geometry, bucket: int)
    requires ValidGeometry(g)
    requires g.tlStart <= bucket < g.nextStart + g.addr * 2
    ensures g.bl >= HALF && g.addr >= HALF && g.tlStart + g.addr == g.nextStart && bucket >= g.blStart
    ensures Grown(g).tlStart + Grown(g).addr == Grown(g).nextStart
    ensures ClientBucket(g, bucket).0 >= HALF
    ensures ClientBucket(Grown(g), bucket) == (ClientBucket(g, bucket).0 - HALF, ClientBucket(g, bucket).1)
  {
    GeometryFacts(g);
    ShiftArithmetic(g, bucket);
  }

  lemma ShiftArithmetic(g: Geometry, bucket: int)
    requires g.bl >= HALF && g.addr == 2 * g.bl && g.blStart <= g.tlStart && g.tlStart + g.addr == g.nextStart
    requires g.tlStart <= bucket < g.nextStart + g.addr * 2
    ensures Grown(g).tlStart + Grown(g).addr == Grown(g).nextStart
    ensures ClientBucket(g, bucket).0 >= HALF
    ensures ClientBucket(Grown(g), bucket) == (ClientBucket(g, bucket).0 - HALF, ClientBucket(g, bucket).1)
  {
    if bucket < g.nextStart {
      SlotInShifts(bucket - g.tlStart, g.addr / HALF, 0);
      assert g.bl * 2 == g.addr;
    } else {
      SlotInShifts(bucket - g.nextStart, g.addr * 2 / HALF, HALF);
    }
  }

  /** The host memory of a bucket; buckets without memory read as zero. */
  ghost function HostAt(g: Geometry, host: HostMemory, bucket: int): LevelBucket {
    if ValidGeometry(g) && HostShape(g, host) && g.blStart <= bucket < LiveEnd(g, |host|) then
      ClientBucketExact(g, |host|, bucket);
      var (c, o) := ClientBucket(g, bucket);
      host[c][o / BUCKET_BYTES]
    else
      EMPTY_BUCKET
  }

  ghost function HostPut(g: Geometry, host: HostMemory, bucket: int, x: LevelBucket): (host': HostMemory)
    ensures |host'| == |host|
  {
    if ValidGeometry(g) && HostShape(g, host) && g.blStart <= bucket < LiveEnd(g, |host|) then
      ClientBucketExact(g, |host|, bucket);
      var (c, o) := ClientBucket(g, bucket);
      var slice: seq<LevelBucket> := host[c][o / BUCKET_BYTES := x];
      host[c := slice]
    else
      host
  }

  lemma HostPutShape(g: Geometry, host: HostMemory, bucket: int, x: LevelBucket)
    requires ValidGeometry(g) && HostShape(g, host) && g.blStart <= bucket < LiveEnd(g, |host|)
    ensures HostShape(g, HostPut(g, host, bucket, x))
  {
    ClientBucketExact(g, |host|, bucket);
  }

  /** Writing one bucket changes that bucket of host memory and no other. */
  lemma HostPutAt(g: Geometry, host: HostMemory, bucket: int, x: LevelBucket, other: int)
    requires ValidGeometry(g) && HostShape(g, host)
    requires g.blStart <= bucket < LiveEnd(g, |host|)
    ensures HostShape(g, HostPut(g, host, bucket, x))
    ensures HostAt(g, HostPut(g, host, bucket, x), other) == if other == bucket then x else HostAt(g, host, other)
  {
    HostPutShape(g, host, bucket, x);
    if g.blStart <= other < LiveEnd(g, |host|) {
      ClientBucketExact(g, |host|, bucket);
      ClientBucketExact(g, |host|, other);
      ClientBucketInjective(g, |host|, bucket, other);
    }
  }

  /** The slices of zeroed memory the host adds for the next level. */
  function NewSlices(g: Geometry): (s: HostMemory)
    ensures |s| == HALF && forall c: nat :: c < HALF ==> s[c] == seq(g.addr * 2 / HALF, _ => EMPTY_BUCKET)
  {
    seq(HALF, _ => seq(g.addr * 2 / HALF, _ => EMPTY_BUCKET))
  }

  lemma ExtendedShape(g: Geometry, host: HostMemory)
    requires ValidGeometry(g) && HostShape(g, host) && |host| == THREADS
    ensures HostShape(g, host + NewSlices(g))
  {
    var host' := host + NewSlices(g);
    forall c: nat | c < |host'| ensures |host'[c]| == SliceLength(g, c) {
      if c >= THREADS {
        assert host'[c] == NewSlices(g)[c - THREADS];
      }
    }
  }

  /** Adding the next level leaves the existing buckets alone and reads as zero. */
  lemma HostExtended(g: Geometry, host: HostMemory, bucket: int)
    requires ValidGeometry(g) && HostShape(g, host) && |host| == THREADS
    ensures HostShape(g, host + NewSlices(g))
    ensures HostAt(g, host + NewSlices(g), bucket) ==
      if bucket < g.nextStart then HostAt(g, host, bucket) else EMPTY_BUCKET
  {
    ExtendedShape(g, host);
    GeometryFacts(g);
    if g.blStart <= bucket < g.nextStart {
      ExtendedOld(g, host, bucket);
    } else if g.nextStart <= bucket < LiveEnd(g, THREADS + HALF) {
      ExtendedNew(g, host, bucket);
    }
  }

  lemma ExtendedOld(g: Geometry, host: HostMemory, bucket: int)
    requires ValidGeometry(g) && HostShape(g, host) && |host| == THREADS && HostShape(g, host + NewSlices(g))
    requires g.blStart <= bucket < g.nextStart
    ensures HostAt(g, host + NewSlices(g), bucket) == HostAt(g, host, bucket)
  {
    ClientBucketExact(g, THREADS, bucket);
    var c := ClientBucket(g, bucket).0;
    assert (host + NewSlices(g))[c] == host[c];
  }

  lemma NextIsNew(g: Geometry, bucket: int)
    requires ValidGeometry(g) && g.nextStart <= bucket < LiveEnd(g, THREADS + HALF)
    ensures g.tlStart + g.addr == g.nextStart && g.bl >= HALF && g.addr >= HALF && bucket >= g.blStart
    ensures ClientBucket(g, bucket).0 >= THREADS
  {
    GeometryFacts(g);
    NextSlot(g, bucket);
  }

  lemma ExtendedNew(g: Geometry, host: HostMemory, bucket: int)
    requires ValidGeometry(g) && HostShape(g, host) && |host| == THREADS && HostShape(g, host + NewSlices(g))
    requires g.nextStart <= bucket < LiveEnd(g, THREADS + HALF)
    ensures HostAt(g, host + NewSlices(g), bucket) == EMPTY_BUCKET
  {
    GeometryFacts(g);
    hide ValidGeometry, HostShape, ClientBucket, SliceBase, NewSlices;
    ClientBucketExact(g, THREADS + HALF, bucket);
    NextIsNew(g, bucket);
    var c := ClientBucket(g, bucket).0;
    assert (host + NewSlices(g))[c] == NewSlices(g)[c - THREADS];
  }

  /** Dropping the first half of the clients and growing the parameters moves no surviving bucket. */
  lemma HostShifted(g: Geometry, host: HostMemory, bucket: int)
    requires ValidGeometry(g) && HostShape(g, host) && |host| == THREADS + HALF
    ensures HostShape(Grown(g), host[HALF..])
    ensures g.tlStart <= bucket ==> HostAt(Grown(g), host[HALF..], bucket) == HostAt(g, host, bucket)
  {
    GeometryFacts(g);
    GrownValid(g);
    GeometryFacts(Grown(g));
    assert forall c: nat :: c < THREADS ==> host[HALF..][c] == host[c + HALF];
    if g.tlStart <= bucket < LiveEnd(g, |host|) {
      ClientBucketShifts(g, bucket);
      ClientBucketExact(g, |host|, bucket);
      ClientBucketExact(Grown(g), THREADS, bucket);
    }
  }

  /** The two zeroed tables the host starts with, cut into slices. */
  function InitialHost(g: Geometry): (host: HostMemory)
    ensures |host| == THREADS
  {
    seq(THREADS, c requires 0 <= c => seq(SliceLength(g, c), _ => EMPTY_BUCKET))
  }

  lemma InitialHostZero(g: Geometry, b: int)
    requires ValidGeometry(g)
    ensures HostShape(g, InitialHost(g)) && HostAt(g, InitialHost(g), b) == EMPTY_BUCKET
  {
    var host := InitialHost(g);
    if g.blStart <= b < LiveEnd(g, |host|) {
      ClientBucketExact(g, |host|, b);
    }
  }

  // ---------- Host memory by bucket ----------

  /** Host memory as a map from bucket to content. */
  ghost function HostView(g: Geometry, host: HostMemory): map<int, LevelBucket> {
    map b: int | g.blStart <= b < LiveEnd(g, |host|) :: HostAt(g, host, b)
  }

  lemma ViewPut(g: Geometry, host: HostMemory, bucket: int, x: LevelBucket)
    requires ValidGeometry(g) && HostShape(g, host) && g.blStart <= bucket < LiveEnd(g, |host|)
    ensures HostShape(g, HostPut(g, host, bucket, x))
    ensures HostView(g, HostPut(g, host, bucket, x)) == HostView(g, host)[bucket := x]
  {
    HostPutShape(g, host, bucket, x);
    var v, v' := HostView(g, host), HostView(g, HostPut(g, host, bucket, x));
    forall b | b in v ensures v'[b] == v[bucket := x][b] { HostPutAt(g, host, bucket, x, b); }
  }

  lemma ViewExtendedAt(g: Geometry, host: HostMemory, b: int)
    requires ValidGeometry(g) && HostShape(g, host) && |host| == THREADS
    ensures var v, v' := HostView(g, host), HostView(g, host + NewSlices(g));
      && (b in v <==> g.blStart <= b < g.nextStart)
      && (b in v' <==> g.blStart <= b < g.nextStart + g.addr * 2)
      && (b in v ==> v'[b] == v[b])
      && (b in v' && b !in v ==> v'[b] == EMPTY_BUCKET)
  {
    GeometryFacts(g);
    HostExtended(g, host, b);
  }

  /** The host's reply to an expansion request adds a zeroed next level and touches nothing else. */
  lemma ViewExtended(g: Geometry, host: HostMemory)
    requires ValidGeometry(g) && HostShape(g, host) && |host| == THREADS
    ensures HostShape(g, host + NewSlices(g))
    ensures HostView(g, host + NewSlices(g)) == HostView(g, host) + ZeroMemory(g.nextStart, g.nextStart + g.addr * 2)
  {
    ExtendedShape(g, host);
    GeometryFacts(g);
    var v, v' := HostView(g, host), HostView(g, host + NewSlices(g));
    var z := ZeroMemory(g.nextStart, g.nextStart + g.addr * 2);
    forall b ensures b in v' <==> b in v + z { ViewExtendedAt(g, host, b); }
    forall b | b in v' ensures v'[b] == (v + z)[b] { ViewExtendedAt(g, host, b); }
  }

  /** The next level added, as seen by a store that had not begun to expand. */
  lemma ViewGrows(g: Geometry, host: HostMemory)
    requires ValidGeometry(g) && HostShape(g, host) && |host| == THREADS
    ensures HostShape(g, host + NewSlices(g)) && |host + NewSlices(g)| == THREADS + HALF && g.addr >= 0
    ensures LiveEnd(g, THREADS + HALF) == g.nextStart + g.addr * 2
    ensures HostView(g, host + NewSlices(g)) == HostView(g, host) + ZeroMemory(LiveEnd(g, THREADS), g.nextStart + g.addr * 2)
  {
    hide HostView, HostShape, ValidGeometry, ZeroMemory;
    ViewExtended(g, host);
  }

  /** Erasing the first half of the clients drops the bottom level and touches nothing else. */
  lemma ViewShifted(g: Geometry, host: HostMemory)
    requires ValidGeometry(g) && HostShape(g, host) && |host| == THREADS + HALF
    ensures ValidGeometry(Grown(g)) && HostShape(Grown(g), host[HALF..])
    ensures LiveEnd(Grown(g), THREADS) == LiveEnd(g, THREADS + HALF)
    ensures HostView(Grown(g), host[HALF..]) == map b | b in HostView(g, host) && b >= g.tlStart :: HostView(g, host)[b]
  {
    GrownValid(g);
    GeometryFacts(g);
    GeometryFacts(Grown(g));
    HostShifted(g, host, g.tlStart);
    var v := HostView(Grown(g), host[HALF..]);
    forall b | b in v ensures v[b] == HostAt(g, host, b) { HostShifted(g, host, b); }
  }
}
