/**
 DNS packets as they are meant (sections 4.1.1 to 4.1.4 of RFC 1035) and how they are written as bytes, independently
 of the reader. The reader accepts every packet so written and finds in it exactly what was written.
 */
module DnsPackets {
  import opened Basics
  import opened DnsReader

  // ---------- Packets and their bytes ----------

  /** Labels, ended by the empty label or by a reference to another place in the packet. */
  datatype Name = Name(labels: seq<seq<Byte>>, reference: Option<nat>)

  datatype Question = Question(name: Name, kind: nat, cls: nat)

  datatype Resource = Resource(name: Name, kind: nat, cls: nat, ttl: nat, data: seq<Byte>)

  datatype Packet = Packet(id: nat, questions: seq<Question>, answers: seq<Resource>, authority: seq<Resource>, additional: seq<Resource>)

  predicate Fits16(n: nat) { n < 0x10000 }

  predicate ProperName(n: Name) {
    && (forall i :: 0 <= i < |n.labels| ==> 1 <= |n.labels[i]| <= 63)
    && (n.reference.Some? ==> n.reference.value < 0x4000)
  }

  predicate ProperQuestion(q: Question) {
    ProperName(q.name) && Fits16(q.kind) && Fits16(q.cls)
  }

  predicate ProperResource(r: Resource) {
    ProperName(r.name) && Fits16(r.kind) && Fits16(r.cls) && r.ttl < 0x1_0000_0000 && Fits16(|r.data|)
  }

  predicate Proper(p: Packet) {
    && p.id < 0x1_0000_0000 && Fits16(|p.questions|) && Fits16(|p.answers|) && Fits16(|p.authority|) && Fits16(|p.additional|)
    && (forall i :: 0 <= i < |p.questions| ==> ProperQuestion(p.questions[i]))
    && AllProper(p.answers) && AllProper(p.authority) && AllProper(p.additional)
  }

  predicate AllProper(rs: seq<Resource>) {
    forall i :: 0 <= i < |rs| ==> ProperResource(rs[i])
  }

  function Two(n: nat): (b: seq<Byte>)
    requires Fits16(n)
    ensures |b| == 2
  {
    [n / 256, n % 256]
  }

  function Four(n: nat): (b: seq<Byte>)
    requires n < 0x1_0000_0000
    ensures |b| == 4
  {
    [n / 0x100_0000, n / 0x10000 % 256, n / 256 % 256, n % 256]
  }

  function NameBytes(n: Name): (b: seq<Byte>)
    requires ProperName(n)
    ensures |b| >= 1
    decreases |n.labels|
  {
    if n.labels == [] then
      (if n.reference.None? then [0] else [0xc0 + n.reference.value / 256, n.reference.value % 256])
    else [|n.labels[0]|] + n.labels[0] + NameBytes(Name(n.labels[1..], n.reference))
  }

  function QuestionBytes(q: Question): seq<Byte>
    requires ProperQuestion(q)
  {
    NameBytes(q.name) + (Two(q.kind) + Two(q.cls))
  }

  function ResourceBytes(r: Resource): seq<Byte>
    requires ProperResource(r)
  {
    NameBytes(r.name) + (Two(r.kind) + (Two(r.cls) + (Four(r.ttl) + (Two(|r.data|) + r.data))))
  }

  function QuestionsBytes(qs: seq<Question>): seq<Byte>
    requires forall i :: 0 <= i < |qs| ==> ProperQuestion(qs[i])
  {
    if qs == [] then [] else QuestionBytes(qs[0]) + QuestionsBytes(qs[1..])
  }

  function ResourcesBytes(rs: seq<Resource>): seq<Byte>
    requires AllProper(rs)
  {
    if rs == [] then [] else ResourceBytes(rs[0]) + ResourcesBytes(rs[1..])
  }

  function Header(p: Packet): (b: seq<Byte>)
    requires Proper(p)
    ensures |b| == 12
  {
    Four(p.id) + (Two(|p.questions|) + (Two(|p.answers|) + (Two(|p.authority|) + Two(|p.additional|))))
  }

  function PacketBytes(p: Packet): seq<Byte>
    requires Proper(p)
  {
    Header(p) + (QuestionsBytes(p.questions)
    + (ResourcesBytes(p.answers) + (ResourcesBytes(p.authority) + ResourcesBytes(p.additional))))
  }

  // ---------- Bytes at a place ----------

  /** The bytes s stand in b from p on. */
  ghost predicate At(b: seq<Byte>, p: nat, s: seq<Byte>) {
    p + |s| <= |b| && b[p..p + |s|] == s
  }

  lemma AtParts(b: seq<Byte>, p: nat, s: seq<Byte>, t: seq<Byte>)
    requires At(b, p, s + t)
    ensures At(b, p, s) && At(b, p + |s|, t)
  {
    var st := b[p..p + |s + t|];
    assert st[..|s|] == s && st[|s|..] == t;
    assert b[p..p + |s|] == st[..|s|];
    assert b[p + |s|..p + |s| + |t|] == st[|s|..];
  }

  lemma AtIndex(b: seq<Byte>, p: nat, s: seq<Byte>, i: nat)
    requires At(b, p, s) && i < |s|
    ensures b[p + i] == s[i]
  {
    assert b[p..p + |s|][i] == b[p + i];
  }

  lemma TwoRead(b: seq<Byte>, p: nat, n: nat)
    requires Fits16(n) && At(b, p, Two(n))
    ensures U16(b, p) == n
  {
    AtIndex(b, p, Two(n), 0);
    AtIndex(b, p, Two(n), 1);
  }

  lemma FourRead(b: seq<Byte>, p: nat, n: nat)
    requires n < 0x1_0000_0000 && At(b, p, Four(n))
    ensures U32(b, p) == n
  {
    AtIndex(b, p, Four(n), 0);
    AtIndex(b, p, Four(n), 1);
    AtIndex(b, p, Four(n), 2);
    AtIndex(b, p, Four(n), 3);
    Digits(n);
  }

  lemma Digits(n: nat)
    ensures n / 0x100_0000 * 0x100_0000 + n / 0x10000 % 256 * 0x10000 + n / 256 % 256 * 256 + n % 256 == n
  {
    var a := n / 256;
    var b := a / 256;
    assert n == 256 * a + n % 256 && a == 256 * b + a % 256 && b == 256 * (b / 256) + b % 256;
    assert n / 0x10000 == b && n / 0x100_0000 == b / 256;
  }

  // ---------- What the reader finds ----------

  /** A name is passed as it was written, if anything stands behind it. */
  lemma {:induction false} NameRead(b: seq<Byte>, p: nat, n: Name, end: nat)
    requires ProperName(n) && At(b, p, NameBytes(n)) && p + |NameBytes(n)| < end <= |b|
    ensures NameEnd(b, p, end) == Some(p + |NameBytes(n)|)
    decreases |n.labels|
  {
    AtIndex(b, p, NameBytes(n), 0);
    if n.labels != [] {
      var first, rest := n.labels[0], Name(n.labels[1..], n.reference);
      var front: seq<Byte> := [|first|] + first;
      assert NameBytes(n) == front + NameBytes(rest);
      AtParts(b, p, front, NameBytes(rest));
      NameRead(b, p + |front|, rest, end);
    }
  }

  /** The record a resource is read as, when it stands at p. */
  function AsRecord(p: nat, r: Resource): Record
    requires ProperResource(r)
  {
    Record(r.kind, r.cls, r.ttl, |r.data|, p + |NameBytes(r.name)| + 10)
  }

  lemma ResourceRead(b: seq<Byte>, p: nat, r: Resource)
    requires ProperResource(r) && At(b, p, ResourceBytes(r))
    ensures RecordAt(b, p, |b|) == Some(AsRecord(p, r))
    ensures At(b, AsRecord(p, r).data, r.data) && AsRecord(p, r).data + |r.data| == p + |ResourceBytes(r)|
  {
    hide NameBytes, Two, Four, U16, U32, NameEnd, At;
    var q := p + |NameBytes(r.name)|;
    AtParts(b, p, NameBytes(r.name), Two(r.kind) + (Two(r.cls) + (Four(r.ttl) + (Two(|r.data|) + r.data))));
    AtParts(b, q, Two(r.kind), Two(r.cls) + (Four(r.ttl) + (Two(|r.data|) + r.data)));
    AtParts(b, q + 2, Two(r.cls), Four(r.ttl) + (Two(|r.data|) + r.data));
    AtParts(b, q + 4, Four(r.ttl), Two(|r.data|) + r.data);
    AtParts(b, q + 8, Two(|r.data|), r.data);
    AtBound(b, q + 10, r.data);
    NameRead(b, p, r.name, |b|);
    TwoRead(b, q, r.kind);
    TwoRead(b, q + 2, r.cls);
    FourRead(b, q + 4, r.ttl);
    TwoRead(b, q + 8, |r.data|);
  }

  lemma AtBound(b: seq<Byte>, p: nat, s: seq<Byte>)
    requires At(b, p, s)
    ensures p + |s| <= |b|
  {
  }

  lemma QuestionRead(b: seq<Byte>, p: nat, q: Question)
    requires ProperQuestion(q) && At(b, p, QuestionBytes(q))
    ensures EntryEnd(b, p, QUESTION) == Some(p + |QuestionBytes(q)|)
  {
    hide NameBytes, Two, NameEnd;
    AtParts(b, p, NameBytes(q.name), Two(q.kind) + Two(q.cls));
    NameRead(b, p, q.name, |b|);
  }

  lemma {:induction false} QuestionsRead(b: seq<Byte>, p: nat, qs: seq<Question>)
    requires (forall i :: 0 <= i < |qs| ==> ProperQuestion(qs[i])) && At(b, p, QuestionsBytes(qs))
    ensures EntriesEnd(b, p, QUESTION, |qs|) == Some(p + |QuestionsBytes(qs)|)
    decreases |qs|
  {
    hide QuestionBytes, EntryEnd, ProperQuestion;
    if qs != [] {
      AtParts(b, p, QuestionBytes(qs[0]), QuestionsBytes(qs[1..]));
      QuestionRead(b, p, qs[0]);
      QuestionsRead(b, p + |QuestionBytes(qs[0])|, qs[1..]);
    }
  }

  /** The records found are those of the resources, in order, with their data in place. */
  ghost predicate Found(b: seq<Byte>, rs: seq<Resource>, records: seq<Record>)
    requires AllProper(rs)
  {
    && |records| == |rs|
    && forall i :: 0 <= i < |rs| ==> Same(b, rs[i], records[i])
  }

  ghost predicate Same(b: seq<Byte>, r: Resource, x: Record) {
    x.kind == r.kind && x.cls == r.cls && x.ttl == r.ttl && x.len == |r.data| && At(b, x.data, r.data)
  }

  lemma {:induction false} ResourcesRead(b: seq<Byte>, p: nat, rs: seq<Resource>)
    requires AllProper(rs) && At(b, p, ResourcesBytes(rs))
    ensures EntriesEnd(b, p, 1, |rs|) == Some(p + |ResourcesBytes(rs)|)
    ensures Found(b, rs, Records(b, p, |rs|))
    decreases |rs|
  {
    hide ResourceBytes, RecordAt, ProperResource, At;
    AtBound(b, p, ResourcesBytes(rs));
    if rs != [] {
      var r, rest := rs[0], rs[1..];
      AtParts(b, p, ResourceBytes(r), ResourcesBytes(rest));
      ResourceRead(b, p, r);
      ResourcesRead(b, p + |ResourceBytes(r)|, rest);
      var q := p + |ResourceBytes(r)|;
      AtBound(b, p, ResourceBytes(r));
      assert Records(b, p, |rs|) == [AsRecord(p, r)] + Records(b, q, |rest|);
    }
  }

  // ---------- Whole packets ----------

  function SectionOf(p: Packet, i: nat): seq<Resource> {
    if i == 1 then p.answers else if i == 2 then p.authority else p.additional
  }

  /** Where the sections are. */
  lemma Placed(p: Packet, more: seq<Byte>)
    requires Proper(p)
    ensures var b := PacketBytes(p) + more;
      var s1 := 12 + |QuestionsBytes(p.questions)|; var s2 := s1 + |ResourcesBytes(p.answers)|; var s3 := s2 + |ResourcesBytes(p.authority)|;
      && At(b, 0, Header(p)) && At(b, 12, QuestionsBytes(p.questions)) && At(b, s1, ResourcesBytes(p.answers))
      && At(b, s2, ResourcesBytes(p.authority)) && At(b, s3, ResourcesBytes(p.additional))
  {
    hide Header, QuestionsBytes, ResourcesBytes, ProperQuestion, ProperResource;
    var q, r1, r2, r3 := QuestionsBytes(p.questions), ResourcesBytes(p.answers), ResourcesBytes(p.authority), ResourcesBytes(p.additional);
    var b := PacketBytes(p) + more;
    assert b[0..|PacketBytes(p)|] == PacketBytes(p);
    assert At(b, 0, Header(p) + (q + (r1 + (r2 + r3))));
    AtParts(b, 0, Header(p), q + (r1 + (r2 + r3)));
    AtParts(b, 12, q, r1 + (r2 + r3));
    AtParts(b, 12 + |q|, r1, r2 + r3);
    AtParts(b, 12 + |q| + |r1|, r2, r3);
  }

  lemma CountsRead(p: Packet, b: seq<Byte>)
    requires Proper(p) && At(b, 0, Header(p))
    ensures |b| >= 12 && Count(b, 0) == |p.questions| && forall i :: 1 <= i < SECTIONS ==> Count(b, i) == |SectionOf(p, i)|
  {
    hide Two, Four, U16, At;
    AtBound(b, 0, Header(p));
    AtParts(b, 0, Four(p.id), Two(|p.questions|) + (Two(|p.answers|) + (Two(|p.authority|) + Two(|p.additional|))));
    AtParts(b, 4, Two(|p.questions|), Two(|p.answers|) + (Two(|p.authority|) + Two(|p.additional|)));
    AtParts(b, 6, Two(|p.answers|), Two(|p.authority|) + Two(|p.additional|));
    AtParts(b, 8, Two(|p.authority|), Two(|p.additional|));
    TwoRead(b, 4, |p.questions|);
    TwoRead(b, 6, |p.answers|);
    TwoRead(b, 8, |p.authority|);
    TwoRead(b, 10, |p.additional|);
  }

  /** A packet, with anything behind it, is accepted, and its sections are found with their records. */
  lemma PacketRead(p: Packet, more: seq<Byte>)
    requires Proper(p)
    ensures var b := PacketBytes(p) + more;
      && WellFormed(b) && Count(b, 0) == |p.questions|
      && forall i :: 1 <= i < SECTIONS ==> SectionRead(p, b, i)
  {
    hide Header, QuestionsBytes, ResourcesBytes, EntriesEnd, Records, Found, At, U16;
    var b := PacketBytes(p) + more;
    Placed(p, more);
    CountsRead(p, b);
    var s1 := 12 + |QuestionsBytes(p.questions)|;
    var s2 := s1 + |ResourcesBytes(p.answers)|;
    var s3 := s2 + |ResourcesBytes(p.authority)|;
    QuestionsRead(b, 12, p.questions);
    assert Start(b, 0) == Some(12) && Start(b, 1) == Some(s1);
    ResourcesRead(b, s1, p.answers);
    SameForRecords(b, s1, 1, |p.answers|);
    assert Start(b, 2) == Some(s2);
    ResourcesRead(b, s2, p.authority);
    SameForRecords(b, s2, 2, |p.authority|);
    assert Start(b, 3) == Some(s3);
    ResourcesRead(b, s3, p.additional);
    SameForRecords(b, s3, 3, |p.additional|);
  }

  /** Section i begins somewhere and holds the records written. */
  ghost predicate SectionRead(p: Packet, b: seq<Byte>, i: nat)
    requires Proper(p) && 1 <= i < SECTIONS
  {
    && |b| >= 12 && Count(b, i) == |SectionOf(p, i)| && Start(b, i).Some?
    && EntriesEnd(b, Start(b, i).value, 1, Count(b, i)).Some?
    && Found(b, SectionOf(p, i), Records(b, Start(b, i).value, Count(b, i)))
  }

  // ---------- What is accepted was written ----------

  lemma AtJoin(b: seq<Byte>, p: nat, s: seq<Byte>, t: seq<Byte>)
    requires At(b, p, s) && At(b, p + |s|, t)
    ensures At(b, p, s + t)
  {
    assert b[p..p + |s + t|] == b[p..p + |s|] + b[p + |s|..p + |s| + |t|];
  }

  lemma {:induction false} NameWritten(b: seq<Byte>, p: nat, end: nat) returns (n: Name)
    requires end <= |b| && NameEnd(b, p, end).Some?
    ensures ProperName(n) && At(b, p, NameBytes(n)) && NameEnd(b, p, end).value == p + |NameBytes(n)|
    decreases |b| - p
  {
    if b[p] == 0 {
      n := Name([], None);
    } else if b[p] < 0x40 {
      var first := b[p + 1..p + 1 + b[p]];
      var rest := NameWritten(b, p + 1 + b[p], end);
      n := Name([first] + rest.labels, rest.reference);
      assert n.labels[1..] == rest.labels;
      var front: seq<Byte> := [|first|] + first;
      assert b[p..p + |front|] == front;
      AtJoin(b, p, front, NameBytes(rest));
      assert NameBytes(n) == front + NameBytes(rest);
    } else {
      var low: nat := b[p + 1];
      var r := (b[p] - 0xc0) * 256 + low;
      n := Name([], Some(r));
      assert r / 256 == b[p] - 0xc0 && r % 256 == low;
      assert NameBytes(n) == [b[p], b[p + 1]];
    }
  }

  lemma TwoWritten(b: seq<Byte>, p: nat)
    requires p + 2 <= |b|
    ensures Fits16(U16(b, p)) && At(b, p, Two(U16(b, p)))
  {
    var high: nat, low: nat := b[p], b[p + 1];
    assert (high * 256 + low) / 256 == high && (high * 256 + low) % 256 == low;
  }

  lemma FourWritten(b: seq<Byte>, p: nat)
    requires p + 4 <= |b|
    ensures U32(b, p) < 0x1_0000_0000 && At(b, p, Four(U32(b, p)))
  {
    var n := U32(b, p);
    var h, l := U16(b, p), U16(b, p + 2);
    TwoWritten(b, p);
    TwoWritten(b, p + 2);
    AtIndex(b, p, Two(h), 0);
    AtIndex(b, p, Two(h), 1);
    AtIndex(b, p + 2, Two(l), 0);
    AtIndex(b, p + 2, Two(l), 1);
    Halves(h, l);
    assert Four(n) == [b[p], b[p + 1], b[p + 2], b[p + 3]];
  }

  lemma Halves(h: nat, l: nat)
    requires h < 0x10000 && l < 0x10000
    ensures var n := h * 0x10000 + l;
      n / 0x10000 == h && n / 0x100_0000 == h / 256 && n / 256 % 256 == l / 256 && n % 256 == l % 256
  {
    var n := h * 0x10000 + l;
    assert n / 256 == 256 * h + l / 256;
    assert h == 256 * (h / 256) + h % 256;
  }

  lemma ResourceWritten(b: seq<Byte>, p: nat) returns (r: Resource)
    requires RecordAt(b, p, |b|).Some?
    ensures ProperResource(r) && At(b, p, ResourceBytes(r))
  {
    hide NameBytes, Two, Four, U16, U32, NameEnd;
    var name := NameWritten(b, p, |b|);
    var q := p + |NameBytes(name)|;
    var x := RecordAt(b, p, |b|).value;
    var data := b[q + 10..q + 10 + x.len];
    TwoWritten(b, q);
    TwoWritten(b, q + 2);
    FourWritten(b, q + 4);
    TwoWritten(b, q + 8);
    r := Resource(name, x.kind, x.cls, x.ttl, data);
    AtJoin(b, q + 8, Two(|data|), data);
    AtJoin(b, q + 4, Four(x.ttl), Two(|data|) + data);
    AtJoin(b, q + 2, Two(x.cls), Four(x.ttl) + (Two(|data|) + data));
    AtJoin(b, q, Two(x.kind), Two(x.cls) + (Four(x.ttl) + (Two(|data|) + data)));
    AtJoin(b, p, NameBytes(name), Two(x.kind) + (Two(x.cls) + (Four(x.ttl) + (Two(|data|) + data))));
  }

  lemma QuestionWritten(b: seq<Byte>, p: nat) returns (q: Question)
    requires EntryEnd(b, p, QUESTION).Some?
    ensures ProperQuestion(q) && At(b, p, QuestionBytes(q))
  {
    hide NameBytes, Two, U16, NameEnd;
    var name := NameWritten(b, p, |b|);
    var e := p + |NameBytes(name)|;
    TwoWritten(b, e);
    TwoWritten(b, e + 2);
    q := Question(name, U16(b, e), U16(b, e + 2));
    AtJoin(b, e, Two(q.kind), Two(q.cls));
    AtJoin(b, p, NameBytes(name), Two(q.kind) + Two(q.cls));
  }

  lemma {:induction false} QuestionsWritten(b: seq<Byte>, p: nat, n: nat) returns (qs: seq<Question>)
    requires p <= |b| && EntriesEnd(b, p, QUESTION, n).Some?
    ensures |qs| == n && (forall i :: 0 <= i < |qs| ==> ProperQuestion(qs[i])) && At(b, p, QuestionsBytes(qs))
    ensures EntriesEnd(b, p, QUESTION, n).value == p + |QuestionsBytes(qs)|
    decreases n
  {
    hide ProperQuestion, QuestionBytes, EntryEnd, At;
    qs := [];
    if n > 0 {
      var q := QuestionWritten(b, p);
      QuestionRead(b, p, q);
      var e := p + |QuestionBytes(q)|;
      var rest := QuestionsWritten(b, e, n - 1);
      qs := [q] + rest;
      assert qs[1..] == rest;
      AtJoin(b, p, QuestionBytes(q), QuestionsBytes(rest));
    } else {
      AtNothing(b, p);
    }
  }

  lemma AtNothing(b: seq<Byte>, p: nat)
    requires p <= |b|
    ensures At(b, p, [])
  {
  }

  lemma {:induction false} ResourcesWritten(b: seq<Byte>, p: nat, n: nat) returns (rs: seq<Resource>)
    requires p <= |b| && EntriesEnd(b, p, 1, n).Some?
    ensures |rs| == n && AllProper(rs) && At(b, p, ResourcesBytes(rs))
    ensures EntriesEnd(b, p, 1, n).value == p + |ResourcesBytes(rs)|
    decreases n
  {
    hide ProperResource, ResourceBytes, RecordAt, At;
    rs := [];
    if n > 0 {
      var r := ResourceWritten(b, p);
      ResourceRead(b, p, r);
      var e := p + |ResourceBytes(r)|;
      var rest := ResourcesWritten(b, e, n - 1);
      rs := [r] + rest;
      assert rs[1..] == rest;
      AtJoin(b, p, ResourceBytes(r), ResourcesBytes(rest));
    } else {
      AtNothing(b, p);
    }
  }

  lemma {:induction false} Starts(b: seq<Byte>, i: nat)
    requires WellFormed(b) && i < SECTIONS
    ensures Start(b, i).Some? && Start(b, i + 1).Some? && Start(b, i + 1) == EntriesEnd(b, Start(b, i).value, i, Count(b, i))
  {
    hide EntriesEnd;
    if Start(b, i + 1) == None { StartMissing(b, i + 1, SECTIONS); }
    if Start(b, i) == None { StartMissing(b, i, SECTIONS); }
  }

  lemma SectionWritten(b: seq<Byte>, i: nat) returns (rs: seq<Resource>)
    requires WellFormed(b) && 1 <= i < SECTIONS
    ensures Start(b, i).Some? && Start(b, i + 1).Some? && |rs| == Count(b, i) && AllProper(rs)
    ensures At(b, Start(b, i).value, ResourcesBytes(rs)) && Start(b, i + 1).value == Start(b, i).value + |ResourcesBytes(rs)|
  {
    hide EntriesEnd, Count;
    Starts(b, i);
    SameForRecords(b, Start(b, i).value, i, Count(b, i));
    rs := ResourcesWritten(b, Start(b, i).value, Count(b, i));
  }

  lemma HeaderWritten(b: seq<Byte>, p: Packet)
    requires |b| >= 12 && Proper(p) && p.id == U32(b, 0) && |p.questions| == Count(b, 0)
    requires |p.answers| == Count(b, 1) && |p.authority| == Count(b, 2) && |p.additional| == Count(b, 3)
    ensures At(b, 0, Header(p))
  {
    hide Two, Four, U16, U32, ProperQuestion, ProperResource;
    FourWritten(b, 0);
    TwoWritten(b, 4);
    TwoWritten(b, 6);
    TwoWritten(b, 8);
    TwoWritten(b, 10);
    AtJoin(b, 8, Two(|p.authority|), Two(|p.additional|));
    AtJoin(b, 6, Two(|p.answers|), Two(|p.authority|) + Two(|p.additional|));
    AtJoin(b, 4, Two(|p.questions|), Two(|p.answers|) + (Two(|p.authority|) + Two(|p.additional|)));
    AtJoin(b, 0, Four(p.id), Two(|p.questions|) + (Two(|p.answers|) + (Two(|p.authority|) + Two(|p.additional|))));
  }

  /** Whatever is accepted is a packet written out, with perhaps something behind it. */
  lemma PacketWritten(b: seq<Byte>) returns (p: Packet, more: seq<Byte>)
    requires WellFormed(b)
    ensures Proper(p) && b == PacketBytes(p) + more
  {
    hide EntriesEnd, U16, U32, Header, QuestionsBytes, ResourcesBytes, ProperQuestion, ProperResource, Start;
    StartIs(b);
    Starts(b, 0);
    var qs := QuestionsWritten(b, 12, Count(b, 0));
    var r1 := SectionWritten(b, 1);
    var r2 := SectionWritten(b, 2);
    var r3 := SectionWritten(b, 3);
    FourWritten(b, 0);
    TwoWritten(b, 4);
    TwoWritten(b, 6);
    TwoWritten(b, 8);
    TwoWritten(b, 10);
    p := Packet(U32(b, 0), qs, r1, r2, r3);
    HeaderWritten(b, p);
    Assembled(b, p);
    more := b[|PacketBytes(p)|..];
    assert b == b[0..|PacketBytes(p)|] + more;
  }

  lemma StartIs(b: seq<Byte>)
    requires |b| >= 12
    ensures Start(b, 0) == Some(12)
  {
  }

  lemma Assembled(b: seq<Byte>, p: Packet)
    requires Proper(p)
    requires var s1 := 12 + |QuestionsBytes(p.questions)|; var s2 := s1 + |ResourcesBytes(p.answers)|; var s3 := s2 + |ResourcesBytes(p.authority)|;
      && At(b, 0, Header(p)) && At(b, 12, QuestionsBytes(p.questions)) && At(b, s1, ResourcesBytes(p.answers))
      && At(b, s2, ResourcesBytes(p.authority)) && At(b, s3, ResourcesBytes(p.additional))
    ensures At(b, 0, PacketBytes(p))
  {
    hide Header, QuestionsBytes, ResourcesBytes, ProperQuestion, ProperResource, At;
    var q, r1, r2, r3 := QuestionsBytes(p.questions), ResourcesBytes(p.answers), ResourcesBytes(p.authority), ResourcesBytes(p.additional);
    AtJoin(b, 12 + |q| + |r1|, r2, r3);
    AtJoin(b, 12 + |q|, r1, r2 + r3);
    AtJoin(b, 12, q, r1 + (r2 + r3));
    AtJoin(b, 0, Header(p), q + (r1 + (r2 + r3)));
  }

  /** Both passes on a packet as written: accepted with its counts, and every section but the questions yields the
      resources written in it. */
  method ReadWritten(ghost p: Packet, ghost more: seq<Byte>, b: seq<Byte>, i: nat) returns (records: Option<seq<Record>>)
    requires Proper(p) && b == PacketBytes(p) + more && 1 <= i < SECTIONS
    ensures records.Some? && Found(b, SectionOf(p, i), records.value)
  {
    hide PacketBytes, WellFormed, Start, EntriesEnd, Records, Found, Count, U16;
    PacketRead(p, more);
    assert SectionRead(p, b, i);
    var layout := ParsePacket(b);
    if layout == None { return None; }
    var rs, end := ReadSection(b, layout.value, i);
    records := Some(rs);
  }
}
