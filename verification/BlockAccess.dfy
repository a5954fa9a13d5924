/**
 Block transfers from and to configuration space, built from accesses of 1, 2 and 4 bytes.
 */
module BlockAccess {

  datatype Access = Access(pos: nat, size: nat)

  /** The largest of 4, 2 and 1 that divides the position and fits. */
  function Widest(pos: nat, len: nat): (size: nat)
    requires len > 0
    ensures size in {1, 2, 4} && size <= len && pos % size == 0
    ensures forall n | n in {1, 2, 4} && n <= len && pos % n == 0 :: n <= size
  {
    if pos % 4 == 0 && len >= 4 then 4 else if pos % 2 == 0 && len >= 2 then 2 else 1
  }

  /** A block cut into widest accesses, from the front. */
  function Plan(pos: nat, len: nat): seq<Access>
    decreases len
  {
    if len == 0 then []
    else
      var size := Widest(pos, len);
      [Access(pos, size)] + Plan(pos + size, len - size)
  }

  /** Accesses that follow each other without gap or overlap from `pos` on. */
  predicate Tiles(accesses: seq<Access>, pos: nat, len: nat) {
    if accesses == [] then len == 0
    else accesses[0].pos == pos && 0 < accesses[0].size <= len && Tiles(accesses[1..], pos + accesses[0].size, len - accesses[0].size)
  }

  lemma {:induction false} PlanTiles(pos: nat, len: nat)
    ensures Tiles(Plan(pos, len), pos, len)
    ensures forall a | a in Plan(pos, len) :: a.size in {1, 2, 4} && a.pos % a.size == 0
    decreases len
  {
    if len > 0 {
      var size := Widest(pos, len);
      PlanTiles(pos + size, len - size);
      assert Plan(pos, len)[1..] == Plan(pos + size, len - size);
    }
  }

  predicate Aligned(accesses: seq<Access>) {
    forall i :: 0 <= i < |accesses| ==> accesses[i].size in {1, 2, 4} && accesses[i].pos % accesses[i].size == 0
  }

  lemma Mod4(x: nat, q: nat, r: nat)
    requires x == 4 * q + r && r < 4
    ensures x % 4 == r
  {
    assert x / 4 == q;
  }

  lemma Mod2(x: nat, q: nat, r: nat)
    requires x == 2 * q + r && r < 2
    ensures x % 2 == r
  {
    assert x / 2 == q;
  }

  /** The remainders n bytes on. */
  lemma Mods(pos: nat, n: nat)
    requires n <= 4
    ensures (pos + n) % 4 == (if pos % 4 + n < 4 then pos % 4 + n else pos % 4 + n - 4)
    ensures (pos + n) % 2 == (if n % 2 == 0 then pos % 2 else 1 - pos % 2)
    ensures pos % 2 == if pos % 4 == 0 || pos % 4 == 2 then 0 else 1
  {
    var q, r := pos / 4, pos % 4;
    if r + n < 4 { Mod4(pos + n, q, r + n); } else { Mod4(pos + n, q + 1, r + n - 4); }
    Mod2(pos, 2 * q + (if r < 2 then 0 else 1), if r < 2 then r else r - 2);
    var h, s := pos / 2, pos % 2;
    var k := if n < 2 then 0 else if n < 4 then 1 else 2;
    if s + (n - 2 * k) < 2 { Mod2(pos + n, h + k, s + (n - 2 * k)); } else { Mod2(pos + n, h + k + 1, 0); }
  }

  /** Starting with a narrower access than the widest saves nothing. */
  lemma NarrowerIsNoBetter(pos: nat, len: nat, size: nat)
    requires len > 0 && size in {1, 2, 4} && size <= len && pos % size == 0
    ensures |Plan(pos, len)| <= 1 + |Plan(pos + size, len - size)|
  {
    hide Plan;
    var widest := Widest(pos, len);
    PlanStep(pos, len);
    if widest == 4 {
      Mods(pos, 2);
      PlanStep(pos + 2, len - 2);
      if size == 1 {
        Mods(pos, 1);
        PlanStep(pos + 1, len - 1);
      }
    } else if widest == 2 && size == 1 {
      Mods(pos, 1);
      PlanStep(pos + 1, len - 1);
    }
  }

  lemma PlanStep(pos: nat, len: nat)
    requires len > 0
    ensures |Plan(pos, len)| == 1 + |Plan(pos + Widest(pos, len), len - Widest(pos, len))|
  {
  }

  /** No cut of the block into aligned accesses needs fewer of them. */
  lemma {:induction false} PlanIsShortest(accesses: seq<Access>, pos: nat, len: nat)
    requires Tiles(accesses, pos, len) && Aligned(accesses)
    ensures |Plan(pos, len)| <= |accesses|
    decreases len
  {
    if len > 0 {
      var size := accesses[0].size;
      PlanIsShortest(accesses[1..], pos + size, len - size);
      NarrowerIsNoBetter(pos, len, size);
    }
  }

  /** The bytes of configuration space, and the accesses that the hardware refuses. */
  datatype Space = Space(bytes: nat -> int, refuses: Access -> bool)

  /** The accesses in `trace` have been made and have filled the buffer up to `pos`. */
  ghost predicate Progress(space: Space, start: nat, count: nat, pos: nat, trace: seq<Access>, buf: seq<int>, was: seq<int>) {
    && start <= pos <= start + count <= start + |was| && |buf| == |was|
    && trace + Plan(pos, start + count - pos) == Plan(start, count)
    && (forall i :: 0 <= i < |trace| ==> !space.refuses(trace[i]))
    && (forall i :: 0 <= i < pos - start ==> buf[i] == space.bytes(start + i))
    && (forall i :: pos - start <= i < |buf| ==> buf[i] == was[i])
  }

  /** The last access in `trace` was refused; the buffer holds what was read before it. */
  ghost predicate Stopped(space: Space, start: nat, count: nat, trace: seq<Access>, buf: seq<int>, was: seq<int>) {
    && count <= |was| == |buf|
    && 0 < |trace| <= |Plan(start, count)| && trace == Plan(start, count)[..|trace|]
    && space.refuses(trace[|trace| - 1])
    && (forall i :: 0 <= i < |trace| - 1 ==> !space.refuses(trace[i]))
    && start <= trace[|trace| - 1].pos <= start + count
    && (forall i :: 0 <= i < |buf| ==> buf[i] == if i < trace[|trace| - 1].pos - start then space.bytes(start + i) else was[i])
  }

  /** One more access of the plan. */
  method Advance(space: Space, start: nat, count: nat, pos: nat, size: nat, trace: seq<Access>, buf: array<int>, ghost was: seq<int>)
    returns (ok: bool, trace': seq<Access>)
    requires Progress(space, start, count, pos, trace, buf[..], was)
    requires pos < start + count && size == Widest(pos, start + count - pos)
    modifies buf
    ensures ok ==> Progress(space, start, count, pos + size, trace', buf[..], was)
    ensures !ok ==> Stopped(space, start, count, trace', buf[..], was)
  {
    ghost var whole, rest := Plan(start, count), Plan(pos, start + count - pos);
    ok := ReadOne(space, Access(pos, size), buf, pos - start);
    trace' := trace + [Access(pos, size)];
    assert rest == [Access(pos, size)] + Plan(pos + size, start + count - (pos + size));
    assert whole == trace' + Plan(pos + size, start + count - (pos + size));
  }

  /** pci_generic_block_op with a read: the accesses made, in order, and whether all of them succeeded. */
  method BlockRead(space: Space, start: nat, buf: array<int>, count: nat) returns (ok: bool, trace: seq<Access>)
    requires count <= buf.Length
    modifies buf
    ensures ok <==> forall a | a in Plan(start, count) :: !space.refuses(a)
    ensures ok ==> trace == Plan(start, count) && Progress(space, start, count, start + count, trace, buf[..], old(buf[..]))
    ensures !ok ==> Stopped(space, start, count, trace, buf[..], old(buf[..]))
  {
    hide Progress, Stopped, Plan, Widest;
    var pos, len := start, count;
    trace := [];
    Begun(space, start, count, buf[..]);
    if pos % 2 == 1 && len >= 1 {
      ByteFirst(pos, len);
      ok, trace := Advance(space, start, count, pos, 1, trace, buf, old(buf[..]));
      if !ok { Refused(space, start, count, trace, buf[..], old(buf[..])); return; }
      pos, len := pos + 1, len - 1;
    }
    if pos % 4 != 0 && len >= 2 {
      HalfWord(pos, len);
      ok, trace := Advance(space, start, count, pos, 2, trace, buf, old(buf[..]));
      if !ok { Refused(space, start, count, trace, buf[..], old(buf[..])); return; }
      pos, len := pos + 2, len - 2;
    }
    while len >= 4
      invariant pos + len == start + count && start <= pos && (len >= 2 ==> pos % 4 == 0)
      invariant Progress(space, start, count, pos, trace, buf[..], old(buf[..]))
    {
      WholeWord(pos, len);
      ok, trace := Advance(space, start, count, pos, 4, trace, buf, old(buf[..]));
      if !ok { Refused(space, start, count, trace, buf[..], old(buf[..])); return; }
      pos, len := pos + 4, len - 4;
    }
    if len >= 2 {
      LastHalf(pos, len);
      ok, trace := Advance(space, start, count, pos, 2, trace, buf, old(buf[..]));
      if !ok { Refused(space, start, count, trace, buf[..], old(buf[..])); return; }
      pos, len := pos + 2, len - 2;
    }
    if len > 0 {
      LastByte(pos);
      ok, trace := Advance(space, start, count, pos, 1, trace, buf, old(buf[..]));
      if !ok { Refused(space, start, count, trace, buf[..], old(buf[..])); return; }
      pos := pos + 1;
    }
    ok := true;
    Completed(space, start, count, trace, buf[..], old(buf[..]));
  }

  lemma ByteFirst(pos: nat, len: nat)
    requires pos % 2 == 1 && len >= 1
    ensures Widest(pos, len) == 1 && (pos + 1) % 2 == 0
  {
    Mods(pos, 1);
  }

  lemma HalfWord(pos: nat, len: nat)
    requires pos % 2 == 0 && pos % 4 != 0 && len >= 2
    ensures Widest(pos, len) == 2 && (pos + 2) % 4 == 0
  {
    Mods(pos, 2);
  }

  lemma WholeWord(pos: nat, len: nat)
    requires pos % 4 == 0 && len >= 4
    ensures Widest(pos, len) == 4 && (pos + 4) % 4 == 0
  {
    Mods(pos, 4);
  }

  lemma LastHalf(pos: nat, len: nat)
    requires pos % 4 == 0 && 2 <= len < 4
    ensures Widest(pos, len) == 2
  {
    Mods(pos, 0);
  }

  lemma LastByte(pos: nat)
    ensures Widest(pos, 1) == 1
  {
  }

  lemma Begun(space: Space, start: nat, count: nat, buf: seq<int>)
    requires count <= |buf|
    ensures Progress(space, start, count, start, [], buf, buf)
  {
  }

  lemma Completed(space: Space, start: nat, count: nat, trace: seq<Access>, buf: seq<int>, was: seq<int>)
    requires Progress(space, start, count, start + count, trace, buf, was)
    ensures trace == Plan(start, count) && forall a | a in Plan(start, count) :: !space.refuses(a)
  {
    assert Plan(start + count, 0) == [];
  }

  lemma Refused(space: Space, start: nat, count: nat, trace: seq<Access>, buf: seq<int>, was: seq<int>)
    requires Stopped(space, start, count, trace, buf, was)
    ensures exists a :: a in Plan(start, count) && space.refuses(a)
  {
    assert trace[|trace| - 1] == Plan(start, count)[|trace| - 1];
  }

  /** One access: on success its bytes are stored. */
  method ReadOne(space: Space, a: Access, buf: array<int>, offset: nat) returns (ok: bool)
    requires offset + a.size <= buf.Length
    modifies buf
    ensures ok == !space.refuses(a)
    ensures forall i :: 0 <= i < buf.Length ==>
      buf[i] == if ok && offset <= i < offset + a.size then space.bytes(a.pos + (i - offset)) else old(buf[i])
  {
    if space.refuses(a) { return false; }
    var k := 0;
    while k < a.size
      invariant k <= a.size
      invariant forall i :: 0 <= i < buf.Length ==>
        buf[i] == if offset <= i < offset + k then space.bytes(a.pos + (i - offset)) else old(buf[i])
    {
      buf[offset + k] := space.bytes(a.pos + k);
      k := k + 1;
    }
    return true;
  }
}
