/**
 Asynchronous DMA between cache frames and host buckets. The DPU program issues requests to the client
 threads and awaits their futures; each client thread completes its requests at times of its own choosing.
 A program that never issues a request, or writes a frame, that an unawaited request touches gets the
 same memory from every interleaving as from running each request on the spot.
 */
module DmaSchedule {
  import opened LevelBuckets

  /** A flush copies a frame to a host bucket, a fetch copies a host bucket to a frame. */
  datatype Dma = Flush(frame: int, bucket: int) | Fetch(frame: int, bucket: int)

  datatype Memory = Memory(frames: map<int, LevelBucket>, host: map<int, LevelBucket>)

  ghost function At(m: map<int, LevelBucket>, i: int): LevelBucket {
    if i in m then m[i] else EMPTY_BUCKET
  }

  ghost function Copied(m: Memory, r: Dma): Memory {
    match r
    case Flush(f, b) => Memory(m.frames, m.host[b := At(m.frames, f)])
    case Fetch(f, b) => Memory(m.frames[f := At(m.host, b)], m.host)
  }

  ghost predicate Independent(p: Dma, q: Dma) {
    p.frame != q.frame && p.bucket != q.bucket
  }

  lemma CopiesCommute(m: Memory, p: Dma, q: Dma)
    requires Independent(p, q)
    ensures Copied(Copied(m, p), q) == Copied(Copied(m, q), p)
  {
    match (p, q)
    case (Flush(f, b), Flush(f', b')) => assert m.host[b := At(m.frames, f)][b' := At(m.frames, f')] == m.host[b' := At(m.frames, f')][b := At(m.frames, f)];
    case (Fetch(f, b), Fetch(f', b')) => assert m.frames[f := At(m.host, b)][f' := At(m.host, b')] == m.frames[f' := At(m.host, b')][f := At(m.host, b)];
    case (Flush(_, _), Fetch(_, _)) =>
    case (Fetch(_, _), Flush(_, _)) =>
  }

  ghost function CopiedAll(m: Memory, rs: seq<Dma>): Memory
    decreases |rs|
  {
    if rs == [] then m else CopiedAll(Copied(m, rs[0]), rs[1..])
  }

  // ---------- Programs ----------

  /** What the DPU thread does: issue a request, wait for one, write a frame itself. */
  datatype Event = Issue(r: Dma) | Await(r: Dma) | Poke(frame: int, x: LevelBucket)

  function Drop(rs: seq<Dma>, r: Dma): seq<Dma> {
    if rs == [] then [] else if rs[0] == r then Drop(rs[1..], r) else [rs[0]] + Drop(rs[1..], r)
  }

  /** The requests issued and not yet awaited. */
  ghost function Outstanding(es: seq<Event>): seq<Dma> {
    if es == [] then []
    else
      var out := Outstanding(es[..|es| - 1]);
      match es[|es| - 1]
      case Issue(r) => out + [r]
      case Await(r) => Drop(out, r)
      case Poke(_, _) => out
  }

  /** The event does not touch what an outstanding request touches. */
  ghost predicate Clear(out: seq<Dma>, e: Event) {
    match e
    case Issue(r) => forall p :: p in out ==> Independent(p, r)
    case Await(_) => true
    case Poke(f, _) => forall p :: p in out ==> p.frame != f
  }

  ghost predicate Disciplined(es: seq<Event>) {
    es == [] || (Disciplined(es[..|es| - 1]) && Clear(Outstanding(es[..|es| - 1]), es[|es| - 1]))
  }

  /** Memory if every request ran when it was issued. */
  ghost function Sequential(m: Memory, es: seq<Event>): Memory {
    if es == [] then m
    else
      var before := Sequential(m, es[..|es| - 1]);
      match es[|es| - 1]
      case Issue(r) => Copied(before, r)
      case Await(_) => before
      case Poke(f, x) => Memory(before.frames[f := x], before.host)
  }

  lemma Snoc(es: seq<Event>, e: Event)
    ensures (es + [e])[..|es|] == es && (es + [e])[|es|] == e
    ensures Disciplined(es + [e]) <==> Disciplined(es) && Clear(Outstanding(es), e)
  {
    assert (es + [e])[..|es|] == es;
  }

  // ---------- Runs ----------

  /** A run interleaves the program with completions by the client threads. */
  datatype Step = Program(e: Event) | Complete(k: nat)

  datatype Machine = Machine(mem: Memory, pending: seq<Dma>)

  ghost function Stepped(s: Machine, step: Step): Machine {
    match step
    case Program(Issue(r)) => Machine(s.mem, s.pending + [r])
    case Program(Await(_)) => s
    case Program(Poke(f, x)) => Machine(Memory(s.mem.frames[f := x], s.mem.host), s.pending)
    case Complete(k) =>
      if k < |s.pending| then Machine(Copied(s.mem, s.pending[k]), s.pending[..k] + s.pending[k + 1..]) else s
  }

  /** An await passes only once its request has completed. */
  ghost predicate Enabled(s: Machine, step: Step) {
    match step
    case Program(Await(r)) => r !in s.pending
    case Program(_) => true
    case Complete(k) => k < |s.pending|
  }

  ghost function After(m: Memory, run: seq<Step>): Machine {
    if run == [] then Machine(m, []) else Stepped(After(m, run[..|run| - 1]), run[|run| - 1])
  }

  ghost predicate Possible(m: Memory, run: seq<Step>) {
    run == [] || (Possible(m, run[..|run| - 1]) && Enabled(After(m, run[..|run| - 1]), run[|run| - 1]))
  }

  ghost function ProgramOf(run: seq<Step>): seq<Event> {
    if run == [] then []
    else
      var es := ProgramOf(run[..|run| - 1]);
      match run[|run| - 1]
      case Program(e) => es + [e]
      case Complete(_) => es
  }

  // ---------- Every interleaving agrees ----------

  ghost predicate PairwiseIndependent(rs: seq<Dma>) {
    forall i, j :: 0 <= i < j < |rs| ==> Independent(rs[i], rs[j])
  }

  lemma DropMembers(rs: seq<Dma>, r: Dma)
    ensures forall p :: p in Drop(rs, r) <==> p in rs && p != r
  {
  }

  lemma {:induction false} DropIndependent(rs: seq<Dma>, r: Dma)
    requires PairwiseIndependent(rs)
    ensures PairwiseIndependent(Drop(rs, r))
  {
    if rs != [] {
      var rest := rs[1..];
      assert forall i :: 0 <= i < |rest| ==> rest[i] == rs[i + 1];
      DropIndependent(rest, r);
      if rs[0] != r {
        var d := Drop(rest, r);
        forall i | 0 <= i < |d| ensures Independent(rs[0], d[i]) {
          DropMembers(rest, r);
          assert d[i] in rest;
        }
        var t := [rs[0]] + d;
        forall i, j | 0 <= i < j < |t| ensures Independent(t[i], t[j]) {
          assert t[j] == d[j - 1];
          if i > 0 { assert t[i] == d[i - 1]; }
        }
      }
    }
  }

  lemma {:induction false} OutstandingIndependent(es: seq<Event>)
    requires Disciplined(es)
    ensures PairwiseIndependent(Outstanding(es))
  {
    if es != [] {
      var es0 := es[..|es| - 1];
      OutstandingIndependent(es0);
      match es[|es| - 1]
      case Issue(r) =>
        var out := Outstanding(es0);
        assert forall i :: 0 <= i < |out| ==> out[i] in out;
      case Await(r) => DropIndependent(Outstanding(es0), r);
      case Poke(_, _) =>
    }
  }

  /** A request independent of those before it may run first. */
  lemma {:induction false} RunFirst(m: Memory, a: seq<Dma>, r: Dma, c: seq<Dma>)
    requires forall p :: p in a ==> Independent(p, r)
    ensures CopiedAll(m, a + [r] + c) == CopiedAll(Copied(m, r), a + c)
    decreases |a|
  {
    if a == [] {
      assert [] + [r] + c == [r] + c;
      assert [] + c == c;
    } else {
      var rest := a[1..];
      assert (a + [r] + c)[1..] == rest + [r] + c;
      assert (a + c)[1..] == rest + c;
      RunFirst(Copied(m, a[0]), rest, r, c);
      CopiesCommute(m, a[0], r);
    }
  }

  lemma {:induction false} CopiedAllSnoc(m: Memory, rs: seq<Dma>, r: Dma)
    ensures CopiedAll(m, rs + [r]) == Copied(CopiedAll(m, rs), r)
    decreases |rs|
  {
    if rs == [] {
      assert CopiedAll(m, [r]) == CopiedAll(Copied(m, r), [r][1..]);
    } else {
      assert (rs + [r])[1..] == rs[1..] + [r];
      CopiedAllSnoc(Copied(m, rs[0]), rs[1..], r);
    }
  }

  /** A write to a frame no pending request touches commutes with them all. */
  lemma {:induction false} PokeFirst(m: Memory, rs: seq<Dma>, f: int, x: LevelBucket)
    requires forall p :: p in rs ==> p.frame != f
    ensures CopiedAll(Memory(m.frames[f := x], m.host), rs) ==
      Memory(CopiedAll(m, rs).frames[f := x], CopiedAll(m, rs).host)
    decreases |rs|
  {
    if rs != [] {
      var m' := Memory(m.frames[f := x], m.host);
      var c := Copied(m, rs[0]);
      assert Copied(m', rs[0]) == Memory(c.frames[f := x], c.host) by {
        assert Copied(m', rs[0]).frames == c.frames[f := x];
        assert Copied(m', rs[0]).host == c.host;
      }
      PokeFirst(c, rs[1..], f, x);
    }
  }

  /** What is still pending has been issued and not been awaited. */
  ghost predicate PendingOutstanding(pending: seq<Dma>, out: seq<Dma>) {
    && PairwiseIndependent(pending)
    && forall p :: p in pending ==> p in out
  }

  lemma CompleteOne(m: Memory, pending: seq<Dma>, k: nat)
    requires k < |pending| && PairwiseIndependent(pending)
    ensures var rest := pending[..k] + pending[k + 1..];
      && CopiedAll(Copied(m, pending[k]), rest) == CopiedAll(m, pending)
      && PairwiseIndependent(rest) && forall p :: p in rest ==> p in pending
  {
    var a, r, c := pending[..k], pending[k], pending[k + 1..];
    assert pending == a + [r] + c;
    forall p | p in a ensures Independent(p, r) {
      var i :| 0 <= i < |a| && a[i] == p;
      assert Independent(pending[i], pending[k]);
    }
    RunFirst(m, a, r, c);
    var rest := a + c;
    forall i, j | 0 <= i < j < |rest| ensures Independent(rest[i], rest[j]) {
      var i', j' := if i < k then i else i + 1, if j < k then j else j + 1;
      assert rest[i] == pending[i'] && rest[j] == pending[j'];
    }
  }

  /** At every point of every possible run of a disciplined program, completing what is pending gives
      exactly the sequential memory; once nothing is pending the memories are equal. */
  lemma {:induction false} EveryInterleaving(m: Memory, run: seq<Step>)
    requires Possible(m, run) && Disciplined(ProgramOf(run))
    ensures var s := After(m, run);
      && CopiedAll(s.mem, s.pending) == Sequential(m, ProgramOf(run))
      && PendingOutstanding(s.pending, Outstanding(ProgramOf(run)))
      && (s.pending == [] ==> s.mem == Sequential(m, ProgramOf(run)))
  {
    if run != [] {
      var run0, step := run[..|run| - 1], run[|run| - 1];
      var es, s0 := ProgramOf(run0), After(m, run0);
      match step
      case Complete(k) =>
        EveryInterleaving(m, run0);
        CompleteOne(s0.mem, s0.pending, k);
      case Program(e) =>
        Snoc(es, e);
        EveryInterleaving(m, run0);
        ProgramStep(m, s0, es, e);
    }
  }

  lemma ProgramStep(m: Memory, s: Machine, es: seq<Event>, e: Event)
    requires Disciplined(es) && Clear(Outstanding(es), e) && Enabled(s, Program(e))
    requires CopiedAll(s.mem, s.pending) == Sequential(m, es) && PendingOutstanding(s.pending, Outstanding(es))
    ensures var s' := Stepped(s, Program(e));
      && CopiedAll(s'.mem, s'.pending) == Sequential(m, es + [e])
      && PendingOutstanding(s'.pending, Outstanding(es + [e]))
  {
    Snoc(es, e);
    match e
    case Issue(r) =>
      CopiedAllSnoc(s.mem, s.pending, r);
      assert forall i :: 0 <= i < |s.pending| ==> s.pending[i] in s.pending;
    case Await(r) =>
      DropMembers(Outstanding(es), r);
    case Poke(f, x) =>
      PokeFirst(s.mem, s.pending, f, x);
  }

  /** What the DPU thread reads: a frame that no pending request touches has its sequential content. */
  lemma {:induction false} FrameSettled(m: Memory, pending: seq<Dma>, f: int)
    requires forall p :: p in pending ==> p.frame != f
    ensures At(CopiedAll(m, pending).frames, f) == At(m.frames, f)
    decreases |pending|
  {
    if pending != [] {
      FrameSettled(Copied(m, pending[0]), pending[1..], f);
    }
  }

  lemma ReadAgrees(m: Memory, run: seq<Step>, f: int)
    requires Possible(m, run) && Disciplined(ProgramOf(run))
    requires forall p :: p in Outstanding(ProgramOf(run)) ==> p.frame != f
    ensures At(After(m, run).mem.frames, f) == At(Sequential(m, ProgramOf(run)).frames, f)
  {
    EveryInterleaving(m, run);
    var s := After(m, run);
    FrameSettled(s.mem, s.pending, f);
  }
}
