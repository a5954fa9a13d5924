/**
 lspci's view of a device's configuration space: a buffer that grows by doubling, and a byte a position that
 says whether the buffer holds what the device holds there.
 */
module ConfigCache {
  import opened Basics

  /** A stretch of configuration space. */
  datatype Range = Range(pos: nat, len: nat)

  predicate In(i: int, r: Range) { r.pos <= i < r.pos + r.len }

  /** What a block read leaves in the buffer: on success the device's bytes; a read that fails may have stored
      some of them. `stored` says which. */
  datatype Reply = Reply(ok: bool, stored: nat -> bool)

  /** The bytes of `range` that are missing, at both ends; what lies outside of `asked` is present. */
  ghost predicate Tight(asked: Range, range: Range, present: seq<bool>) {
    && range.pos <= asked.pos && 0 < asked.len && asked.pos + asked.len <= range.pos + range.len
    && Missing(asked.pos, present) && Missing(asked.pos + asked.len - 1, present)
    && forall i :: In(i, range) && !In(i, asked) ==> !Missing(i, present)
  }

  predicate Missing(i: int, present: seq<bool>) { !(0 <= i < |present| && present[i]) }

  /** The size that doubling arrives at. */
  function Doubled(size: nat, end: nat): (r: nat)
    requires size > 0
    ensures size <= r && end <= r
    ensures r > size ==> r < 2 * end
    decreases end - size
  {
    if end > size then Doubled(2 * size, end) else size
  }

  /** What checking a range comes to: all present, a first byte that is not, or a read past the buffer. */
  datatype Check = Present | Absent(pos: int) | PastEnd

  class View {
    /** What the device holds; it is taken not to change. */
    const device: nat -> int
    var config: seq<int>
    var present: seq<bool>

    ghost predicate Valid()
      reads this
    {
      |config| == |present| > 0 && forall i :: 0 <= i < |present| && present[i] ==> config[i] == device(i)
    }

    /** A device as scan_device sets it up once the standard header has been read. */
    constructor (device: nat -> int)
      ensures Valid() && this.device == device && |present| == 64 && forall i :: 0 <= i < 64 ==> present[i]
    {
      this.device := device;
      config := seq(64, i requires 0 <= i => device(i));
      present := seq(64, _ => true);
    }

    /** The part of a range that has to be read: present bytes are trimmed from both ends. */
    method Trim(range: Range) returns (asked: Range)
      requires Valid()
      ensures asked.len == 0 ==> forall i :: In(i, range) ==> !Missing(i, present)
      ensures asked.len > 0 ==> Tight(asked, range, present)
    {
      var pos, len := range.pos, range.len;
      while pos < |present| && len > 0 && present[pos]
        invariant range.pos <= pos && 0 <= len && pos + len == range.pos + range.len
        invariant forall i :: range.pos <= i < pos ==> !Missing(i, present)
        decreases len
      {
        pos, len := pos + 1, len - 1;
      }
      while pos + len <= |present| && len > 0 && present[pos + len - 1]
        invariant 0 <= len && range.pos <= pos && pos + len <= range.pos + range.len
        invariant len > 0 ==> Missing(pos, present)
        invariant forall i :: In(i, range) && !(pos <= i < pos + len) ==> !Missing(i, present)
        decreases len
      {
        len := len - 1;
      }
      return Range(pos, len);
    }

    /** Grow the buffers by doubling until they reach `end`; nothing new is present. */
    method Grow(end: nat)
      requires Valid()
      modifies this
      ensures Valid() && |present| == Doubled(old(|present|), end)
      ensures forall i :: Missing(i, present) <==> Missing(i, old(present))
    {
      var size := |present|;
      while end > size
        invariant |present| <= size && Doubled(size, end) == Doubled(|present|, end)
        decreases end - size
      {
        size := size * 2;
      }
      var more: nat := size - |present|;
      config := config + seq(more, _ => 0);
      present := present + seq(more, _ => false);
    }

    /** config_fetch. True exactly when nothing had to be read or the one read that was made succeeded; then the
        whole range is present, and it is all that has become present. */
    method Fetch(range: Range, reply: Reply) returns (ok: bool, asked: Option<Range>)
      requires Valid()
      modifies this
      ensures Valid()
      ensures asked.None? <==> forall i :: In(i, range) ==> !Missing(i, old(present))
      ensures asked.Some? ==> Tight(asked.value, range, old(present))
      ensures ok <==> asked.None? || reply.ok
      ensures forall i :: Missing(i, present) <==> Missing(i, old(present)) && !(ok && In(i, range))
    {
      var r := Trim(range);
      if r.len == 0 { return true, None; }
      var end := range.pos + range.len;
      if end > |present| {
        Grow(end);
      }
      Store(r, reply);
      if reply.ok {
        Mark(r);
      }
      return reply.ok, Some(r);
    }

    /** pci_read_block into the buffer. */
    method Store(r: Range, reply: Reply)
      requires Valid() && r.pos + r.len <= |config|
      modifies `config
      ensures Valid() && |config| == old(|config|)
      ensures reply.ok ==> forall i :: In(i, r) ==> config[i] == device(i)
    {
      var k := 0;
      while k < r.len
        invariant k <= r.len && Valid() && |config| == old(|config|)
        invariant reply.ok ==> forall i :: r.pos <= i < r.pos + k ==> config[i] == device(i)
      {
        if reply.ok || reply.stored(r.pos + k) {
          config := config[r.pos + k := device(r.pos + k)];
        }
        k := k + 1;
      }
    }

    method Mark(r: Range)
      requires Valid() && r.pos + r.len <= |config| && forall i :: In(i, r) ==> config[i] == device(i)
      modifies `present
      ensures Valid() && forall i :: Missing(i, present) <==> Missing(i, old(present)) && !In(i, r)
    {
      present := present[..r.pos] + seq(r.len, _ => true) + present[r.pos + r.len..];
    }

    /** check_conf_range: the source stops the program at the first byte that is not present. It does not compare
        positions with the buffer's size, so it reads past the end exactly when all bytes before that are present. */
    method CheckRange(range: Range) returns (check: Check)
      ensures check.Present? <==> forall i :: In(i, range) ==> !Missing(i, present)
      ensures check.Absent? ==> In(check.pos, range) && check.pos < |present| && !present[check.pos]
      ensures check.Absent? ==> forall i :: range.pos <= i < check.pos ==> !Missing(i, present)
      ensures check.PastEnd? <==> range.pos + range.len > |present| && range.len > 0 && forall i :: range.pos <= i < |present| ==> present[i]
    {
      var pos, len := range.pos, range.len;
      while len > 0
        invariant pos + len == range.pos + range.len && range.pos <= pos
        invariant forall i :: range.pos <= i < pos ==> !Missing(i, present)
      {
        if pos >= |present| {
          assert Missing(pos, present) && In(pos, range);
          forall i | range.pos <= i < |present| ensures present[i] { assert !Missing(i, present); }
          return PastEnd;
        }
        if !present[pos] {
          assert Missing(pos, present) && In(pos, range);
          return Absent(pos);
        }
        pos, len := pos + 1, len - 1;
      }
      if range.len > 0 { assert !Missing(range.pos + range.len - 1, present); }
      return Present;
    }

    /** get_conf_long: the device's own bytes, least significant first. */
    method GetLong(pos: nat) returns (r: Option<int>)
      requires Valid()
      ensures r.Some? <==> forall i :: In(i, Range(pos, 4)) ==> !Missing(i, present)
      ensures r.Some? ==> r.value == Little(device, pos, 4)
    {
      var check := CheckRange(Range(pos, 4));
      if !check.Present? { return None; }
      assert !Missing(pos, present) && !Missing(pos + 1, present) && !Missing(pos + 2, present) by {
        assert In(pos, Range(pos, 4)) && In(pos + 1, Range(pos, 4)) && In(pos + 2, Range(pos, 4));
      }
      assert !Missing(pos + 3, present) by { assert In(pos + 3, Range(pos, 4)); }
      r := Some(config[pos] + config[pos + 1] * 0x100 + config[pos + 2] * 0x10000 + config[pos + 3] * 0x100_0000);
      LittleFour(device, pos);
    }
  }

  /** n bytes read as a number, least significant first. */
  function Little(device: nat -> int, pos: nat, n: nat): int
    decreases n
  {
    if n == 0 then 0 else device(pos) + 0x100 * Little(device, pos + 1, n - 1)
  }

  lemma LittleFour(device: nat -> int, pos: nat)
    ensures Little(device, pos, 4) == device(pos) + device(pos + 1) * 0x100 + device(pos + 2) * 0x10000 + device(pos + 3) * 0x100_0000
  {
    assert Little(device, pos + 4, 0) == 0;
    assert Little(device, pos + 3, 1) == device(pos + 3);
    assert Little(device, pos + 2, 2) == device(pos + 2) + device(pos + 3) * 0x100;
    assert Little(device, pos + 1, 3) == device(pos + 1) + device(pos + 2) * 0x100 + device(pos + 3) * 0x10000;
  }
}
