/**
 The reader of DNS answers: a first pass over the packet checks it and notes where its four sections begin, a
 second pass reads the records of one section with the section's end as its only limit.
 */
module DnsReader {
  import opened Basics

  type Byte = x: int | 0 <= x < 256

  const SECTIONS: nat := 4
  const QUESTION: nat := 0

  // ---------- Fields ----------

  function U16(b: seq<Byte>, p: nat): nat
    requires p + 2 <= |b|
  {
    var high: nat := b[p];
    high * 0x100 + b[p + 1]
  }

  function U32(b: seq<Byte>, p: nat): nat
    requires p + 4 <= |b|
  {
    U16(b, p) * 0x10000 + U16(b, p + 2)
  }

  /** Where the name at p ends, if it does so within `end`: labels up to the empty one, or a reference of two
      bytes (which may not be the last thing there is). */
  function NameEnd(b: seq<Byte>, p: nat, end: nat): (r: Option<nat>)
    requires end <= |b|
    ensures r.Some? ==> p < r.value <= end
    decreases |b| - p
  {
    if p >= end then None
    else if b[p] == 0 then Some(p + 1)
    else if b[p] < 0x40 then NameEnd(b, p + 1 + b[p], end)
    else if b[p] >= 0xc0 then (if p + 2 < end then Some(p + 2) else None)
    else None
  }

  /** The limit does not matter as long as it leaves room behind the name. */
  lemma {:induction false} NameEndLocal(b: seq<Byte>, p: nat, end: nat, limit: nat)
    requires limit <= end <= |b|
    requires NameEnd(b, p, end).Some? && NameEnd(b, p, end).value < limit
    ensures NameEnd(b, p, limit) == NameEnd(b, p, end)
    decreases |b| - p
  {
    if b[p] != 0 && b[p] < 0x40 {
      NameEndLocal(b, p + 1 + b[p], end, limit);
    }
  }

  method SkipName(b: seq<Byte>, start: nat, end: nat) returns (r: Option<nat>)
    requires end <= |b|
    ensures r == NameEnd(b, start, end)
  {
    var p := start;
    while p < end
      invariant NameEnd(b, p, end) == NameEnd(b, start, end)
      decreases end - p
    {
      var x := b[p];
      p := p + 1;
      if x == 0 { return Some(p); }
      if x < 0x40 {
        p := p + x;
      } else if x >= 0xc0 {
        p := p + 1;
        return if p < end then Some(p) else None;
      } else {
        return None;
      }
    }
    return None;
  }

  // ---------- Records ----------

  datatype Record = Record(kind: nat, cls: nat, ttl: nat, len: nat, data: nat)

  /** The record at p, and where the next one begins; it lies within `end`. */
  function RecordAt(b: seq<Byte>, p: nat, end: nat): (r: Option<Record>)
    requires end <= |b|
    ensures r.Some? ==> p < r.value.data && r.value.data + r.value.len <= end
  {
    match NameEnd(b, p, end)
    case None => None
    case Some(q) =>
      if q + 10 > end || q + 10 + U16(b, q + 8) > end then None
      else Some(Record(U16(b, q), U16(b, q + 2), U32(b, q + 4), U16(b, q + 8), q + 10))
  }

  /** The name at p and the ten bytes behind it can be read within `end`. */
  predicate HeaderFits(b: seq<Byte>, p: nat, end: nat)
    requires end <= |b|
  {
    NameEnd(b, p, end).Some? && NameEnd(b, p, end).value + 10 <= end
  }

  /** The record they announce, whether or not its data fit. */
  function HeaderAt(b: seq<Byte>, p: nat, end: nat): Record
    requires end <= |b|
  {
    if !HeaderFits(b, p, end) then Record(0, 0, 0, 0, 0)
    else
      var q := NameEnd(b, p, end).value;
      Record(U16(b, q), U16(b, q + 2), U32(b, q + 4), U16(b, q + 8), q + 10)
  }

  /** The end of the question at p: a name, a type and a class. */
  function QuestionEnd(b: seq<Byte>, p: nat, end: nat): (r: Option<nat>)
    requires end <= |b|
    ensures r.Some? ==> p < r.value <= end
  {
    match NameEnd(b, p, end)
    case None => None
    case Some(q) => if q + 4 > end then None else Some(q + 4)
  }

  function EntryEnd(b: seq<Byte>, p: nat, i: nat): (r: Option<nat>)
    ensures r.Some? ==> p < r.value <= |b|
  {
    if i == QUESTION then QuestionEnd(b, p, |b|)
    else match RecordAt(b, p, |b|) case None => None case Some(rec) => Some(rec.data + rec.len)
  }

  /** Where n entries from p on end. */
  function EntriesEnd(b: seq<Byte>, p: nat, i: nat, n: nat): (r: Option<nat>)
    requires p <= |b|
    ensures r.Some? ==> p <= r.value <= |b|
    decreases n
  {
    if n == 0 then Some(p)
    else match EntryEnd(b, p, i) case None => None case Some(q) => EntriesEnd(b, q, i, n - 1)
  }

  /** The n records from p on. */
  function Records(b: seq<Byte>, p: nat, n: nat): (rs: seq<Record>)
    requires p <= |b| && EntriesEnd(b, p, 1, n).Some?
    ensures |rs| == n
    decreases n
  {
    if n == 0 then []
    else
      var rec := RecordAt(b, p, |b|).value;
      [rec] + Records(b, rec.data + rec.len, n - 1)
  }

  /** Sections 1 to 3 are alike. */
  lemma {:induction false} SameForRecords(b: seq<Byte>, p: nat, i: nat, n: nat)
    requires p <= |b| && i != QUESTION
    ensures EntriesEnd(b, p, i, n) == EntriesEnd(b, p, 1, n)
    decreases n
  {
    if n > 0 && EntryEnd(b, p, i).Some? {
      SameForRecords(b, EntryEnd(b, p, i).value, i, n - 1);
    }
  }

  // ---------- The first pass ----------

  function Count(b: seq<Byte>, i: nat): nat
    requires |b| >= 12 && i < SECTIONS
  {
    U16(b, 4 + 2 * i)
  }

  /** Where section i begins, if everything before it can be read. */
  function Start(b: seq<Byte>, i: nat): (r: Option<nat>)
    requires |b| >= 12 && i <= SECTIONS
    ensures r.Some? ==> r.value <= |b|
  {
    if i == 0 then Some(12)
    else match Start(b, i - 1) case None => None case Some(p) => EntriesEnd(b, p, i - 1, Count(b, i - 1))
  }

  lemma {:induction false} StartMissing(b: seq<Byte>, i: nat, j: nat)
    requires |b| >= 12 && i <= j <= SECTIONS && Start(b, i) == None
    ensures Start(b, j) == None
  {
    if i < j { StartMissing(b, i, j - 1); }
  }

  predicate WellFormed(b: seq<Byte>) {
    |b| >= 12 && Start(b, SECTIONS).Some?
  }

  datatype Layout = Layout(counts: seq<nat>, sections: seq<nat>)

  /** The counts of the header, and where the sections begin; the last entry is where the last one ends. */
  ghost predicate LaidOut(b: seq<Byte>, l: Layout) {
    && |b| >= 12 && |l.counts| == SECTIONS && |l.sections| == SECTIONS + 1
    && (forall i :: 0 <= i < SECTIONS ==> l.counts[i] == Count(b, i))
    && (forall i :: 0 <= i <= SECTIONS ==> Start(b, i) == Some(l.sections[i]))
  }

  /** dns_parse_packet: accepts exactly the packets whose announced entries can all be read. */
  method ParsePacket(b: seq<Byte>) returns (r: Option<Layout>)
    ensures r.Some? <==> WellFormed(b)
    ensures r.Some? ==> LaidOut(b, r.value)
  {
    hide EntriesEnd;
    if |b| < 12 { return None; }
    var counts := [U16(b, 4), U16(b, 6), U16(b, 8), U16(b, 10)];
    var sections: seq<nat> := [12];
    var p: nat, i := 12, 0;
    while i < SECTIONS
      invariant i <= SECTIONS && |sections| == i + 1 && p == sections[i] <= |b|
      invariant forall k :: 0 <= k <= i ==> Start(b, k) == Some(sections[k])
    {
      var q := PassEntries(b, p, i, counts[i]);
      assert Start(b, i + 1) == EntriesEnd(b, p, i, counts[i]);
      if q == None {
        StartMissing(b, i + 1, SECTIONS);
        return None;
      }
      p, i := q.value, i + 1;
      sections := sections + [p];
    }
    return Some(Layout(counts, sections));
  }

  /** The loop over the entries of one section. */
  method PassEntries(b: seq<Byte>, start: nat, i: nat, n: nat) returns (r: Option<nat>)
    requires start <= |b|
    ensures r == EntriesEnd(b, start, i, n)
  {
    var p: nat, j := start, 0;
    while j < n
      invariant 0 <= j <= n && p <= |b|
      invariant EntriesEnd(b, start, i, n) == EntriesEnd(b, p, i, n - j)
    {
      var q := PassEntry(b, p, i);
      if q == None { return None; }
      p, j := q.value, j + 1;
    }
    return Some(p);
  }

  method PassEntry(b: seq<Byte>, p: nat, i: nat) returns (r: Option<nat>)
    ensures r == EntryEnd(b, p, i)
  {
    hide NameEnd;
    var q := SkipName(b, p, |b|);
    if q == None { return None; }
    var e := q.value + 4;
    if e > |b| { return None; }
    if i != QUESTION {
      e := e + 4;
      if e > |b| || e + 2 > |b| { return None; }
      e := e + 2 + U16(b, e);
      if e > |b| { return None; }
    }
    return Some(e);
  }

  // ---------- The second pass ----------

  class Cursor {
    const packet: seq<Byte>
    const secEnd: nat
    var secPtr: nat
    var record: Record

    constructor (packet: seq<Byte>, layout: Layout, i: nat)
      requires LaidOut(packet, layout) && i < SECTIONS
      ensures this.packet == packet && secPtr == layout.sections[i] && secEnd == layout.sections[i + 1]
    {
      this.packet := packet;
      secPtr, secEnd := layout.sections[i], layout.sections[i + 1];
      record := Record(0, 0, 0, 0, 0);
    }

    /** dns_parse_rr: 0 at the end of the section, 1 with a record, -1 on an error. */
    method ParseRecord() returns (code: int)
      requires secPtr <= secEnd <= |packet|
      modifies this
      ensures code == 0 <==> old(secPtr) == secEnd
      ensures code == 0 ==> secPtr == old(secPtr)
      ensures RecordAt(packet, old(secPtr), secEnd).Some? ==>
        code == 1 && record == RecordAt(packet, old(secPtr), secEnd).value && secPtr == record.data + record.len
      ensures code == -1 <==> old(secPtr) != secEnd && !HeaderFits(packet, old(secPtr), secEnd)
      ensures code == -1 ==> secPtr == old(secPtr)
      ensures code == 1 ==> record == HeaderAt(packet, old(secPtr), secEnd) && secPtr == record.data + record.len
      ensures code in {-1, 0, 1}
    {
      if secPtr == secEnd { return 0; }
      var q := SkipName(packet, secPtr, secEnd);
      if q == None { return -1; }
      var p := q.value;
      if p + 10 > secEnd { return -1; }
      record := Record(U16(packet, p), U16(packet, p + 2), U32(packet, p + 4), U16(packet, p + 8), p + 10);
      secPtr := p + 10 + record.len;
      return 1;
    }
  }

  /** A record that fits in the section is read the same with the section's end as limit. */
  lemma RecordLocal(b: seq<Byte>, p: nat, limit: nat)
    requires limit <= |b|
    requires RecordAt(b, p, |b|).Some? && RecordAt(b, p, |b|).value.data + RecordAt(b, p, |b|).value.len <= limit
    ensures RecordAt(b, p, limit) == RecordAt(b, p, |b|)
  {
    NameEndLocal(b, p, |b|, limit);
  }

  /** Both passes agree: from a packet that the first pass accepts, the second pass gets exactly the announced
      records of any section but the questions, never fails, and stops exactly where the next section begins. */
  method ReadSection(b: seq<Byte>, layout: Layout, i: nat) returns (records: seq<Record>, end: nat)
    requires LaidOut(b, layout) && 0 < i < SECTIONS
    ensures end == layout.sections[i + 1]
    ensures |records| == layout.counts[i]
    ensures ToRead(b, layout.sections[i], layout.counts[i], end) && records == Records(b, layout.sections[i], layout.counts[i])
    ensures forall k :: 0 <= k < |records| ==> layout.sections[i] < records[k].data && records[k].data + records[k].len <= end
  {
    hide EntriesEnd, Records, RecordAt;
    var cursor := new Cursor(b, layout, i);
    ghost var start, n, stop := layout.sections[i], layout.counts[i], layout.sections[i + 1];
    SectionIs(b, layout, i);
    records := [];
    ghost var left := n;
    var code := 1;
    while code > 0
      invariant cursor.packet == b && cursor.secEnd == stop && (code == 0 || code == 1)
      invariant start <= cursor.secPtr && ToRead(b, cursor.secPtr, left, stop)
      invariant records + Records(b, cursor.secPtr, left) == Records(b, start, n)
      invariant forall k :: 0 <= k < |records| ==> start < records[k].data && records[k].data + records[k].len <= cursor.secPtr
      invariant code == 0 ==> left == 0
      decreases left, code
    {
      ghost var at := cursor.secPtr;
      NextRecord(b, at, left, stop);
      code := cursor.ParseRecord();
      if code > 0 {
        records := records + [cursor.record];
        left := left - 1;
      }
    }
    NextRecord(b, cursor.secPtr, left, stop);
    end := cursor.secPtr;
  }

  /** n records lie between p and `stop`. */
  ghost predicate ToRead(b: seq<Byte>, p: nat, n: nat, stop: nat) {
    p <= stop <= |b| && EntriesEnd(b, p, 1, n) == Some(stop)
  }

  lemma SectionIs(b: seq<Byte>, layout: Layout, i: nat)
    requires LaidOut(b, layout) && 0 < i < SECTIONS
    ensures ToRead(b, layout.sections[i], layout.counts[i], layout.sections[i + 1])
  {
    SameForRecords(b, layout.sections[i], i, layout.counts[i]);
    assert Start(b, i + 1) == EntriesEnd(b, layout.sections[i], i, layout.counts[i]);
  }

  /** Entries take up room: the section is exhausted exactly when no record is left, and otherwise the next
      record is read the same with the section's end as limit. */
  lemma NextRecord(b: seq<Byte>, p: nat, n: nat, stop: nat)
    requires ToRead(b, p, n, stop)
    ensures p == stop <==> n == 0
    ensures n == 0 ==> Records(b, p, n) == []
    ensures n > 0 ==> RecordAt(b, p, stop).Some?
    ensures n > 0 ==>
      var rec := RecordAt(b, p, stop).value;
      p < rec.data && ToRead(b, rec.data + rec.len, n - 1, stop) && Records(b, p, n) == [rec] + Records(b, rec.data + rec.len, n - 1)
  {
    if n > 0 {
      RecordLocal(b, p, stop);
    }
  }
}
