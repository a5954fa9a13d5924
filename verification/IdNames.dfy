/**
 The table of names for PCI ids: an allocator that carves entries out of buckets, and a hash table of chains
 into which a key is inserted once and looked up under flags that leave out certain sources.
 */
module IdNames {
  import opened Basics

  // ---------- The allocator ----------

  const BUCKET_SIZE: nat := 8192
  /** The size and alignment of struct id_bucket on a 64-bit machine. */
  const HEADER: nat := 16
  const ALIGNMENT: nat := 8

  /** BUCKET_ALIGN: up to the next multiple, also from a multiple. */
  function BucketAlign(n: nat): (r: nat)
    ensures r % ALIGNMENT == 0 && n < r <= n + ALIGNMENT
  {
    n + ALIGNMENT - n % ALIGNMENT
  }

  /** The first position handed out in a bucket. */
  const FIRST: nat := 24

  /** A piece of memory handed out: in which bucket, where, and how long. */
  datatype Region = Region(bucket: nat, pos: nat, size: nat)

  predicate Apart(r: Region, s: Region) {
    r.bucket != s.bucket || r.pos + r.size <= s.pos || s.pos + s.size <= r.pos
  }

  class Arena {
    /** The fill level of each bucket; the last one is the current bucket. */
    var full: seq<nat>
    ghost var regions: seq<Region>

    ghost predicate Valid()
      reads this
    {
      && (forall b :: 0 <= b < |full| ==> full[b] % ALIGNMENT == 0 && full[b] >= FIRST)
      && (forall i :: 0 <= i < |regions| ==> Placed(regions[i], full))
      && (forall i, j :: 0 <= i < j < |regions| ==> Apart(regions[i], regions[j]))
    }

    ghost predicate Placed(r: Region, levels: seq<nat>) {
      r.bucket < |levels| && r.pos % ALIGNMENT == 0 && FIRST <= r.pos && r.pos + r.size < levels[r.bucket]
    }

    constructor ()
      ensures Valid() && full == [] && regions == []
    {
      full, regions := [], [];
    }

    /** id_alloc. The region is aligned and apart from all others; it lies inside its bucket exactly when the
        request fits an empty one, and a new bucket begins exactly when the current one has no room. */
    method Alloc(size: nat) returns (r: Region)
      requires Valid()
      modifies this
      ensures Valid() && regions == old(regions) + [r] && r.size == size
      ensures r.pos % ALIGNMENT == 0 && forall i :: 0 <= i < |old(regions)| ==> Apart(old(regions)[i], r)
      ensures r.pos % 8 == 0 && r.pos >= 24 && (r.pos + r.size <= 8192 <==> size <= 8192 - 24)
      ensures old(full) != [] && old(full)[|old(full)| - 1] + size <= 8192 ==>
        r.bucket == |old(full)| - 1 && r.pos == old(full)[r.bucket] && |full| == |old(full)|
      ensures old(full) == [] || old(full)[|old(full)| - 1] + size > 8192 ==> r.bucket == |old(full)| && |full| == r.bucket + 1
    {
      if full == [] || full[|full| - 1] + size > BUCKET_SIZE {
        full := full + [BucketAlign(HEADER)];
      }
      var b := |full| - 1;
      var pos := full[b];
      full := full[b := BucketAlign(pos + size)];
      r := Region(b, pos, size);
      regions := regions + [r];
    }
  }

  // ---------- Keys ----------

  const HASH_SIZE: nat := 4099

  function IdPair(x: bv32, y: bv32): bv32 { (x << 16) | y }

  function PairFirst(p: bv32): bv32 { (p >> 16) & 0xffff }

  function PairSecond(p: bv32): bv32 { p & 0xffff }

  /** Ids of 16 bits come back out of a pair. */
  lemma PairRoundTrip(x: bv32, y: bv32)
    requires x <= 0xffff && y <= 0xffff
    ensures PairFirst(IdPair(x, y)) == x && PairSecond(IdPair(x, y)) == y
  {
  }

  /** A pair keeps its two ids apart exactly when they have 16 bits: any other pair of ids shares its code with a
      pair of 16-bit ids. */
  lemma PairExact(x: bv32, y: bv32)
    ensures IdPair(PairFirst(IdPair(x, y)), PairSecond(IdPair(x, y))) == IdPair(x, y)
    ensures (PairFirst(IdPair(x, y)) == x && PairSecond(IdPair(x, y)) == y) <==> x <= 0xffff && y <= 0xffff
  {
  }

  /** What a name is asked for. */
  datatype Ids = Ids(cat: int, id1: bv32, id2: bv32, id3: bv32, id4: bv32)

  datatype Key = Key(cat: int, id12: bv32, id34: bv32)

  function KeyOf(ids: Ids): Key {
    Key(ids.cat, IdPair(ids.id1, ids.id2), IdPair(ids.id3, ids.id4))
  }

  predicate Narrow(ids: Ids) {
    0 <= ids.cat < 0x100 && ids.id1 <= 0xffff && ids.id2 <= 0xffff && ids.id3 <= 0xffff && ids.id4 <= 0xffff
  }

  /** Different ids of 16 bits have different keys. */
  lemma KeysDiffer(a: Ids, b: Ids)
    requires Narrow(a) && Narrow(b) && KeyOf(a) == KeyOf(b)
    ensures a == b
  {
    hide IdPair, PairFirst, PairSecond;
    PairRoundTrip(a.id1, a.id2);
    PairRoundTrip(a.id3, a.id4);
    PairRoundTrip(b.id1, b.id2);
    PairRoundTrip(b.id3, b.id4);
  }

  /** Without that limit they need not. */
  lemma WideIdsClash()
    ensures KeyOf(Ids(2, 0, 0x10000, 0, 0)) == KeyOf(Ids(2, 1, 0, 0, 0))
  {
  }

  /** The key as an entry keeps it: the category in one byte. */
  function Kept(k: Key): Key {
    Key(k.cat % 0x100, k.id12, k.id34)
  }

  function Hash(k: Key): (h: nat)
    ensures h < HASH_SIZE
  {
    var cat := (k.cat % 0x1_0000_0000) as bv32;
    ((k.id12 ^ (k.id34 << 3) ^ (cat << 5)) as nat) % HASH_SIZE
  }

  // ---------- The table ----------

  datatype Source = Unknown | Cache | Net | Hwdb | Local

  datatype Entry = Entry(key: Key, src: Source, name: string)

  datatype Flags = Flags(skipLocal: bool, network: bool, cache: bool, noHwdb: bool)

  predicate Allowed(src: Source, flags: Flags) {
    match src
    case Unknown => true
    case Cache => flags.cache
    case Net => flags.network
    case Hwdb => !flags.skipLocal && !flags.noHwdb
    case Local => !flags.skipLocal
  }

  function Rank(src: Source): nat {
    match src case Unknown => 0 case Cache => 1 case Net => 2 case Hwdb => 3 case Local => 4
  }

  /** What the table stands for: the name and the source of every key inserted. */
  type Names = map<Key, (string, Source)>

  /** Chains and names agree: entries are in the chain of their hash, no key is there twice, and the chains
      hold exactly the names. */
  ghost predicate Represents(chains: seq<seq<Entry>>, names: Names) {
    && |chains| == HASH_SIZE
    && (forall h, i :: 0 <= h < HASH_SIZE && 0 <= i < |chains[h]| ==>
          Kept(chains[h][i].key) == chains[h][i].key && Hash(chains[h][i].key) == h && Holds(names, chains[h][i]))
    && (forall h, i, j :: 0 <= h < HASH_SIZE && 0 <= i < j < |chains[h]| ==> chains[h][i].key != chains[h][j].key)
    && (forall k :: k in names ==> InChain(chains[Hash(k)], k))
  }

  ghost predicate Holds(names: Names, e: Entry) {
    e.key in names && names[e.key] == (e.name, e.src)
  }

  ghost predicate InChain(chain: seq<Entry>, k: Key) {
    exists i :: 0 <= i < |chain| && chain[i].key == k
  }

  class Table {
    /** None until the first insertion. */
    var chains: Option<seq<seq<Entry>>>
    ghost var names: Names

    ghost predicate Valid()
      reads this
    {
      match chains case None => names == map[] case Some(c) => Represents(c, names)
    }

    constructor ()
      ensures Valid() && names == map[]
    {
      chains, names := None, map[];
    }

    /** pci_id_insert: 1 when the key is there already, whatever its source; the first insertion wins. A category
        that does not fit a byte is never found, so such an entry is always added, under a cut category. */
    method Insert(ids: Ids, text: string, src: Source) returns (code: int)
      requires Valid()
      modifies this
      ensures code == if KeyOf(ids) in old(names) then 1 else 0
      ensures 0 <= ids.cat < 0x100 ==> Valid()
      ensures names == if code == 1 then old(names) else old(names)[Kept(KeyOf(ids)) := (text, src)]
      ensures code == 1 ==> chains == old(chains)
      ensures code == 0 ==> chains == Some(Linked(old(chains), Hash(KeyOf(ids)), Entry(Kept(KeyOf(ids)), src, text)))
    {
      hide Hash, KeyOf, Represents;
      var key := KeyOf(ids);
      var h := Hash(key);
      if chains.Some? {
        ChainOf(chains.value, names, key);
        var chain := chains.value[h];
        var n := 0;
        while n < |chain| && chain[n].key != key
          invariant n <= |chain| && forall i :: 0 <= i < n ==> chain[i].key != key
        {
          n := n + 1;
        }
        if n < |chain| { return 1; }
      } else {
        EmptyRepresents();
        chains := Some(seq(HASH_SIZE, _ => []));
      }
      var e := Entry(Kept(key), src, text);
      KeyCat(ids);
      RepresentsSize(chains.value, names);
      if Kept(key) == key { Pushed(chains.value, names, e); }
      chains := Some(chains.value[h := [e] + chains.value[h]]);
      names := names[Kept(key) := (text, src)];
      return 0;
    }

    /** pci_id_lookup: the name of the key, unless the flags leave out its source. */
    method Lookup(flags: Flags, ids: Ids) returns (name: Option<string>)
      requires Valid()
      ensures name == if KeyOf(ids) in names && Allowed(names[KeyOf(ids)].1, flags) then Some(names[KeyOf(ids)].0) else None
      ensures !(0 <= ids.cat < 0x100) ==> name == None
      ensures KeyOf(ids) in names ==>
        var src := names[KeyOf(ids)].1;
        name == None <==> (src == Local && flags.skipLocal) || (src == Hwdb && (flags.skipLocal || flags.noHwdb))
                          || (src == Net && !flags.network) || (src == Cache && !flags.cache)
    {
      hide Hash, KeyOf, Represents;
      var key := KeyOf(ids);
      if chains.None? { return None; }
      KeyCat(ids);
      if key in names { NamesFit(chains.value, names, key); }
      ChainOf(chains.value, names, key);
      var chain := chains.value[Hash(key)];
      var best: Option<Entry> := None;
      var n := 0;
      while n < |chain|
        invariant n <= |chain|
        invariant best.Some? ==> Holds(names, best.value) && best.value.key == key && Allowed(best.value.src, flags)
        invariant best.None? ==> forall i :: 0 <= i < n ==> chain[i].key != key || !Allowed(chain[i].src, flags)
      {
        var e := chain[n];
        if e.key == key && Allowed(e.src, flags) && (best.None? || Rank(best.value.src) < Rank(e.src)) {
          best := Some(e);
        }
        n := n + 1;
      }
      return if best.Some? then Some(best.value.name) else None;
    }
  }

  /** The chains with an entry in front of chain h; they are set up if need be. */
  function Linked(chains: Option<seq<seq<Entry>>>, h: nat, e: Entry): seq<seq<Entry>> {
    var c: seq<seq<Entry>> := if chains.Some? then chains.value else seq(HASH_SIZE, _ => []);
    if h < |c| then c[h := [e] + c[h]] else c
  }

  lemma KeyCat(ids: Ids)
    ensures 0 <= ids.cat < 0x100 <==> Kept(KeyOf(ids)) == KeyOf(ids)
  {
  }

  lemma RepresentsSize(chains: seq<seq<Entry>>, names: Names)
    requires Represents(chains, names)
    ensures |chains| == HASH_SIZE
  {
  }

  /** Names are under keys whose category fits a byte. */
  lemma NamesFit(chains: seq<seq<Entry>>, names: Names, k: Key)
    requires Represents(chains, names) && k in names
    ensures Kept(k) == k
  {
    hide Hash;
    assert InChain(chains[Hash(k)], k);
  }

  lemma EmptyRepresents()
    ensures Represents(seq(HASH_SIZE, _ => []), map[])
  {
    hide Hash;
  }

  /** All entries of a chain are in the names, and a key in the names is in its chain. */
  lemma ChainOf(chains: seq<seq<Entry>>, names: Names, k: Key)
    requires Represents(chains, names)
    ensures |chains| == HASH_SIZE && (k in names <==> InChain(chains[Hash(k)], k))
    ensures forall i :: 0 <= i < |chains[Hash(k)]| ==> Holds(names, chains[Hash(k)][i])
  {
    hide Hash;
  }

  lemma Pushed(chains: seq<seq<Entry>>, names: Names, e: Entry)
    requires Represents(chains, names) && e.key !in names && Kept(e.key) == e.key
    ensures |chains| == HASH_SIZE
    ensures var h := Hash(e.key); Represents(chains[h := [e] + chains[h]], names[e.key := (e.name, e.src)])
  {
    hide Hash;
    var h := Hash(e.key);
    var chains': seq<seq<Entry>> := chains[h := [e] + chains[h]];
    var names' := names[e.key := (e.name, e.src)];
    forall g, i | 0 <= g < HASH_SIZE && 0 <= i < |chains'[g]| ensures Kept(chains'[g][i].key) == chains'[g][i].key && Hash(chains'[g][i].key) == g && Holds(names', chains'[g][i]) {
      if g == h && i > 0 { assert chains'[g][i] == chains[g][i - 1]; }
    }
    forall g, i, j | 0 <= g < HASH_SIZE && 0 <= i < j < |chains'[g]| ensures chains'[g][i].key != chains'[g][j].key {
      if g == h { assert chains'[g][j] == chains[g][j - 1]; }
    }
    forall k | k in names' ensures InChain(chains'[Hash(k)], k) {
      if k == e.key {
        assert chains'[h][0].key == k;
      } else {
        var i :| 0 <= i < |chains[Hash(k)]| && chains[Hash(k)][i].key == k;
        if Hash(k) == h { assert chains'[h][i + 1].key == k; } else { assert chains'[Hash(k)][i].key == k; }
      }
    }
  }
}
