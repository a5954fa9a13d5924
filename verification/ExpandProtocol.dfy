/**
 The message protocol by which DPU and host expand the table together: two FIFO channels, callbacks that run
 when a side makes progress, and the host's memory slices coming and going. A run is any interleaving of
 the two sides' steps.
 */
module ExpandProtocol {
  import opened Basics
  import opened LevelGeometry

  /** Slice i of the table that is the top level at level `gen`. */
  datatype Slice = Slice(gen: int, i: nat)

  datatype ToHost = Expand | ExpandFinish | Exit
  datatype ToDpu = Seeds | Export(s: Slice) | FinishBack

  /** Where the DPU thread is: its constructor's wait loop, serving requests, and the three stages of Expand. */
  datatype DpuPhase = Initialising | Serving | AwaitingMmaps | Rehashing | AwaitingFinish | Ended

  /** Where the host thread is: its run loop, the wait loop in Expand, or between that loop and the exchange of
      its servers. */
  datatype HostPhase = Idle | InLoop | Finishing | Stopped

  /** `violated`: a callback got a message it does not expect; `flying`: the slices of transfers not completed yet. */
  datatype State = State(
    dpu: DpuPhase, dpuLevel: int, clients: seq<Option<Slice>>, toReceive: nat, seeds: bool,
    host: HostPhase, hostLevel: int, mapped: set<int>,
    toHost: seq<ToHost>, toDpu: seq<ToDpu>,
    violated: bool, flying: multiset<Slice>)

  // ---------- The two sides ----------

  /** The host maps and unmaps a table's slices together: `mapped` holds the tables that are mapped. */
  predicate Mapped(s: State, slice: Slice) {
    slice.gen in s.mapped && slice.i < HALF
  }

  function Exports(gen: int): seq<ToDpu> {
    [Export(Slice(gen, 0)), Export(Slice(gen, 1)), Export(Slice(gen, 2)), Export(Slice(gen, 3))]
  }

  /** The host has sent its seeds and the slices of both levels; the DPU has received nothing yet. */
  ghost function Init(level: int): State
  {
    State(Initialising, level, seq(THREADS, _ => None), THREADS, false,
          Idle, level, {level - 1, level},
          [], [Seeds] + Exports(level - 1) + Exports(level), false, multiset{})
  }

  datatype Action =
    | DpuReceive       // one progress step of the DPU: a callback handles the oldest message
    | DpuBeginExpand   // Expand up to its first wait loop
    | DpuEndRehash     // after the last split: finish message, grown parameters, clients erased
    | DpuDma(c: nat)   // a transfer issued through client c
    | DmaDone(x: Slice) // the thread of some client completes a transfer
    | DpuEnd           // an END request
    | HostReceive      // one progress step of the host
    | HostExchange     // what Host::Expand does after its wait loop

  predicate Enabled(s: State, a: Action) {
    match a
    case DpuReceive => s.toDpu != [] && s.dpu in {Initialising, AwaitingMmaps, AwaitingFinish}
    case DpuBeginExpand => s.dpu == Serving
    case DpuEndRehash => s.dpu == Rehashing && s.flying == multiset{} // every transfer has been awaited
    case DpuDma(c) => s.dpu in {Serving, Rehashing} && c < |s.clients|
    case DmaDone(x) => x in s.flying
    case DpuEnd => s.dpu == Serving
    case HostReceive => s.toHost != [] && s.host in {Idle, InLoop}
    case HostExchange => s.host == Finishing
  }

  /** comch_dpu_recv_callback, then the wait loop's condition. */
  ghost function DpuReceived(s: State): State
    requires s.toDpu != []
  {
    var s1 := s.(toDpu := s.toDpu[1..]);
    match s.toDpu[0]
    case Export(slice) =>
      if s.toReceive == 0 then s1.(violated := true)
      else if s.dpu == Initialising then
        var s2 := s1.(clients := Put(s.clients, THREADS - s.toReceive, Some(slice)), toReceive := s.toReceive - 1);
        if s.toReceive == 1 && s.seeds then s2.(dpu := Serving) else s2
      else if s.dpu == AwaitingMmaps then
        var s2 := s1.(clients := Put(s.clients, THREADS + HALF - s.toReceive, Some(slice)), toReceive := s.toReceive - 1);
        if s.toReceive == 1 then s2.(dpu := Rehashing) else s2
      else s1.(violated := true)
    case Seeds =>
      if s.seeds then s1.(violated := true)
      else if s.dpu == Initialising && s.toReceive == 0 then s1.(seeds := true, dpu := Serving)
      else s1.(seeds := true)
    case FinishBack =>
      if s.dpu == AwaitingFinish then s1.(dpu := Serving) else s1.(violated := true)
  }

  /** comch_host_recv_callback; an EXPAND enters Host::Expand and its wait loop. */
  ghost function HostReceived(s: State): State
    requires s.toHost != []
  {
    var s1 := s.(toHost := s.toHost[1..]);
    match s.toHost[0]
    case Expand =>
      if s.host == InLoop then s1.(violated := true)
      else s1.(host := InLoop, mapped := s.mapped + {s.hostLevel + 1}, toDpu := s.toDpu + Exports(s.hostLevel + 1))
    case ExpandFinish =>
      s1.(host := if s.host == InLoop then Finishing else s.host, toDpu := s.toDpu + [FinishBack])
    case Exit => s1.(host := Stopped)
  }

  ghost function Stepped(s: State, a: Action): State
    requires Enabled(s, a)
  {
    match a
    case DpuReceive => DpuReceived(s)
    case DpuBeginExpand =>
      s.(dpu := AwaitingMmaps, toReceive := HALF, toHost := s.toHost + [Expand], clients := s.clients + seq(HALF, _ => None))
    case DpuEndRehash =>
      s.(dpu := AwaitingFinish, dpuLevel := s.dpuLevel + 1, toHost := s.toHost + [ExpandFinish],
         clients := if |s.clients| >= HALF then s.clients[HALF..] else [])
    case DpuDma(c) => if s.clients[c].Some? then s.(flying := s.flying + multiset{s.clients[c].value}) else s.(violated := true)
    case DmaDone(x) => s.(flying := s.flying - multiset{x})
    case DpuEnd => s.(dpu := Ended, toHost := s.toHost + [Exit])
    case HostReceive => HostReceived(s)
    case HostExchange =>
      s.(host := Idle, hostLevel := s.hostLevel + 1, mapped := s.mapped - {s.hostLevel - 1})
  }

  // ---------- Runs ----------

  ghost predicate Possible(level: int, run: seq<Action>)
  {
    run == [] || (Possible(level, run[..|run| - 1]) && Enabled(After(level, run[..|run| - 1]), run[|run| - 1]))
  }

  ghost function After(level: int, run: seq<Action>): State
  {
    if run == [] then Init(level)
    else
      var s := After(level, run[..|run| - 1]);
      if Enabled(s, run[|run| - 1]) then Stepped(s, run[|run| - 1]) else s
  }

  // ---------- What every run keeps ----------

  /** The clients' slices in order: the bottom table, then the top table. */
  function TwoTables(level: int): seq<Option<Slice>>
  {
    OneTable(level - 1) + OneTable(level)
  }

  function OneTable(gen: int): seq<Option<Slice>> {
    [Some(Slice(gen, 0)), Some(Slice(gen, 1)), Some(Slice(gen, 2)), Some(Slice(gen, 3))]
  }

  /** The host between expansions, as seen by a DPU of level l: it may still have to exchange its servers. */
  ghost predicate HostSettling(s: State, l: int)
  {
    || (s.host == Idle && s.hostLevel == l && s.mapped == {l - 1, l})
    || (s.host == Finishing && s.hostLevel == l - 1 && s.mapped == {l - 2, l - 1, l})
  }

  ghost predicate HostExpanding(s: State, l: int)
  {
    s.host == InLoop && s.hostLevel == l && s.mapped == {l - 1, l, l + 1}
  }

  ghost predicate InitialisingInv(s: State)
  {
    var all := [Seeds] + Exports(s.dpuLevel - 1) + Exports(s.dpuLevel);
    && s.host == Idle && s.hostLevel == s.dpuLevel && s.mapped == {s.dpuLevel - 1, s.dpuLevel}
    && s.toHost == [] && 0 < |s.toDpu| <= THREADS + 1 && s.toDpu == all[THREADS + 1 - |s.toDpu|..]
    && s.seeds == (|s.toDpu| <= THREADS) && s.toReceive == (if |s.toDpu| <= THREADS then |s.toDpu| else THREADS)
    && |s.clients| == THREADS && forall i :: 0 <= i < THREADS - s.toReceive ==> s.clients[i] == TwoTables(s.dpuLevel)[i]
  }

  ghost predicate AwaitingMmapsInv(s: State)
  {
    var l := s.dpuLevel;
    && |s.clients| == THREADS + HALF && s.clients[..THREADS] == TwoTables(l) && 1 <= s.toReceive <= HALF
    && (forall i :: THREADS <= i < THREADS + HALF - s.toReceive ==> s.clients[i] == OneTable(l + 1)[i - THREADS])
    && ((s.toHost == [Expand] && HostSettling(s, l) && s.toDpu == [] && s.toReceive == HALF)
        || (s.toHost == [] && HostExpanding(s, l) && s.toDpu == Exports(l + 1)[HALF - s.toReceive..]))
  }

  ghost predicate AwaitingFinishInv(s: State)
  {
    var l := s.dpuLevel;
    && s.clients == TwoTables(l) && s.toReceive == 0
    && ((s.toHost == [ExpandFinish] && HostExpanding(s, l - 1) && s.toDpu == [])
        || (s.toHost == [] && HostSettling(s, l) && s.toDpu == [FinishBack]))
  }

  ghost predicate Inv(s: State) {
    && !s.violated
    && match s.dpu
       case Initialising => InitialisingInv(s)
       case Serving =>
         && s.clients == TwoTables(s.dpuLevel) && s.toReceive == 0 && s.seeds
         && s.toHost == [] && s.toDpu == [] && HostSettling(s, s.dpuLevel)
       case AwaitingMmaps => s.seeds && AwaitingMmapsInv(s)
       case Rehashing =>
         && s.clients == TwoTables(s.dpuLevel) + OneTable(s.dpuLevel + 1) && s.toReceive == 0 && s.seeds
         && s.toHost == [] && s.toDpu == [] && HostExpanding(s, s.dpuLevel)
       case AwaitingFinish => s.seeds && AwaitingFinishInv(s)
       case Ended =>
         && s.toDpu == [] && (s.toHost == [Exit] || s.toHost == []) && (s.host == Stopped || HostSettling(s, s.dpuLevel))
         && {s.dpuLevel - 1, s.dpuLevel} <= s.mapped
  }

  /** Transfers in flight go to the tables of the DPU's level, and during a rehash also to the next one; none is
      left over when the clients of a table are erased. */
  ghost predicate FlyingInv(s: State) {
    && (s.dpu == Initialising || s.dpu == AwaitingFinish ==> s.flying == multiset{})
    && (forall x :: x in s.flying ==> OnTable(x, s.dpuLevel, s.dpu == Rehashing))
  }

  predicate OnTable(x: Slice, l: int, rehashing: bool) {
    x.i < HALF && (x.gen == l - 1 || x.gen == l || (rehashing && x.gen == l + 1))
  }

  ghost predicate FullInv(s: State) {
    Inv(s) && FlyingInv(s)
  }

  lemma InitInv(level: int)
    ensures FullInv(Init(level))
  {
  }

  lemma ReceiveInitialising(s: State)
    requires Inv(s) && s.dpu == Initialising
    ensures Inv(DpuReceived(s))
  {
    var all := [Seeds] + Exports(s.dpuLevel - 1) + Exports(s.dpuLevel);
    var k := THREADS + 1 - |s.toDpu|;
    assert s.toDpu[0] == all[k];
    assert s.toDpu[1..] == all[k + 1..];
    if k > 0 {
      assert all[k] == Export(TwoTables(s.dpuLevel)[k - 1].value);
      var s' := DpuReceived(s);
      if |s.toDpu| == 1 {
        assert s'.clients == TwoTables(s.dpuLevel);
      }
    }
  }

  lemma ReceiveMmap(s: State)
    requires Inv(s) && s.dpu == AwaitingMmaps && s.toDpu != []
    ensures Inv(DpuReceived(s))
  {
    var l := s.dpuLevel;
    var k := HALF - s.toReceive;
    assert s.toDpu[0] == Exports(l + 1)[k] == Export(OneTable(l + 1)[k].value);
    assert s.toDpu[1..] == Exports(l + 1)[k + 1..];
    var s' := DpuReceived(s);
    assert s'.clients[..THREADS] == TwoTables(l);
    if s.toReceive == 1 {
      assert s'.clients == TwoTables(l) + OneTable(l + 1);
    }
  }

  lemma BeginExpand(s: State)
    requires Inv(s) && s.dpu == Serving
    ensures Inv(Stepped(s, DpuBeginExpand))
  {
    var s' := Stepped(s, DpuBeginExpand);
    assert s'.clients[..THREADS] == s.clients;
  }

  lemma EndRehash(s: State)
    requires Inv(s) && Enabled(s, DpuEndRehash)
    ensures Inv(Stepped(s, DpuEndRehash))
  {
    var l := s.dpuLevel;
    assert (TwoTables(l) + OneTable(l + 1))[HALF..] == TwoTables(l + 1);
  }

  lemma HostSteps(s: State, a: Action)
    requires Inv(s) && Enabled(s, a) && (a == HostReceive || a == HostExchange)
    ensures Inv(Stepped(s, a))
  {
    var l := s.dpuLevel;
    if a == HostExchange {
      assert {l - 2, l - 1, l} - {l - 2} == {l - 1, l};
    } else if s.dpu == AwaitingMmaps {
      assert Exports(l + 1)[0..] == Exports(l + 1);
      assert {l - 1, l} + {l + 1} == {l - 1, l, l + 1};
    }
  }

  lemma ReceiveFinish(s: State)
    requires Inv(s) && s.dpu == AwaitingFinish && s.toDpu != []
    ensures Inv(DpuReceived(s))
  {
    hide TwoTables, OneTable, Exports;
  }

  lemma EndSteps(s: State, a: Action)
    requires Inv(s) && Enabled(s, a) && (a.DpuEnd? || a.DmaDone? || a.DpuDma?)
    ensures Inv(Stepped(s, a))
  {
    if a.DpuDma? { ClientKnown(s, a.c); }
    hide TwoTables, OneTable, Exports;
  }

  lemma StepInv(s: State, a: Action)
    requires Inv(s) && Enabled(s, a)
    ensures Inv(Stepped(s, a))
  {
    hide Inv, DpuReceived, HostReceived;
    match a
    case DpuReceive =>
      if s.dpu == Initialising { ReceiveInitialising(s); }
      else if s.dpu == AwaitingMmaps { ReceiveMmap(s); }
      else { ReceiveFinish(s); }
    case DpuBeginExpand => BeginExpand(s);
    case DpuEndRehash => EndRehash(s);
    case DpuDma(_) => EndSteps(s, a);
    case DmaDone(_) => EndSteps(s, a);
    case DpuEnd => EndSteps(s, a);
    case HostReceive => HostSteps(s, a);
    case HostExchange => HostSteps(s, a);
  }

  /** The client of a transfer serves a slice of one of the DPU's tables. */
  lemma ClientKnown(s: State, c: nat)
    requires Inv(s) && Enabled(s, DpuDma(c))
    ensures s.clients[c].Some? && OnTable(s.clients[c].value, s.dpuLevel, s.dpu == Rehashing)
  {
    var l := s.dpuLevel;
    if s.dpu == Rehashing && c >= THREADS {
      assert s.clients[c] == OneTable(l + 1)[c - THREADS];
    } else {
      assert s.clients[c] == TwoTables(l)[c];
    }
  }

  lemma StepFlying(s: State, a: Action)
    requires Inv(s) && FlyingInv(s) && Enabled(s, a)
    ensures FlyingInv(Stepped(s, a))
  {
    hide Inv, FlyingInv, DpuReceived, HostReceived, OnTable;
    match a
    case DpuReceive =>
      ReceiveFlying(s);
      StillOnTable(s, Stepped(s, a));
    case DpuDma(c) =>
      ClientKnown(s, c);
      OneMoreFlying(s, s.clients[c].value);
    case DpuEndRehash => NoneFlying(Stepped(s, a));
    case HostReceive =>
      HostLeavesDpu(s);
      StillOnTable(s, Stepped(s, a));
    case DmaDone(_) => StillOnTable(s, Stepped(s, a));
    case DpuBeginExpand => StillOnTable(s, Stepped(s, a));
    case DpuEnd => StillOnTable(s, Stepped(s, a));
    case HostExchange => StillOnTable(s, Stepped(s, a));
  }

  lemma StillOnTable(s: State, s': State)
    requires FlyingInv(s) && s'.flying <= s.flying && s'.dpuLevel == s.dpuLevel && (s.dpu == Rehashing ==> s'.dpu == Rehashing)
    requires s'.dpu == Initialising || s'.dpu == AwaitingFinish ==> s'.dpu == s.dpu
    ensures FlyingInv(s')
  {
    forall x | x in s'.flying ensures OnTable(x, s'.dpuLevel, s'.dpu == Rehashing) { assert x in s.flying; }
  }

  lemma OneMoreFlying(s: State, x: Slice)
    requires FlyingInv(s) && OnTable(x, s.dpuLevel, s.dpu == Rehashing) && s.dpu in {Serving, Rehashing}
    ensures FlyingInv(s.(flying := s.flying + multiset{x}))
  {
    hide OnTable;
  }

  lemma NoneFlying(s: State)
    requires s.flying == multiset{}
    ensures FlyingInv(s)
  {
  }

  lemma HostLeavesDpu(s: State)
    requires s.toHost != []
    ensures var s' := HostReceived(s); s'.flying == s.flying && s'.dpu == s.dpu && s'.dpuLevel == s.dpuLevel
  {
  }

  lemma ReceiveFlying(s: State)
    requires s.toDpu != []
    ensures var s' := DpuReceived(s); s'.dpu == Initialising || s'.dpu == AwaitingFinish ==> s'.dpu == s.dpu
    ensures DpuReceived(s).flying == s.flying && DpuReceived(s).dpuLevel == s.dpuLevel && (s.dpu == Rehashing ==> DpuReceived(s).dpu == Rehashing)
  {
  }

  lemma {:induction false} RunInv(level: int, run: seq<Action>)
    requires Possible(level, run)
    ensures FullInv(After(level, run))
  {
    hide Inv, FlyingInv, Stepped, Enabled;
    if run == [] {
      InitInv(level);
    } else {
      RunInv(level, run[..|run| - 1]);
      StepInv(After(level, run[..|run| - 1]), run[|run| - 1]);
      StepFlying(After(level, run[..|run| - 1]), run[|run| - 1]);
    }
  }

  // ---------- What the invariant gives ----------

  ghost predicate Reaches(level: int, run: seq<Action>, s: State) {
    Possible(level, run) && s == After(level, run)
  }

  /** In every reachable state, every transfer in flight and every one that may be issued goes to a slice the host has
      mapped, and no message has arrived that its receiver did not expect. */
  lemma TransfersHitMappedMemory(level: int, run: seq<Action>, s: State)
    requires Reaches(level, run, s)
    ensures !s.violated && forall x :: x in s.flying ==> Mapped(s, x)
    ensures forall c: nat :: Enabled(s, DpuDma(c)) ==> s.clients[c].Some? && Mapped(s, s.clients[c].value)
  {
    hide Possible, After, Inv;
    RunInv(level, run);
    TablesMapped(s);
    forall c: nat | Enabled(s, DpuDma(c)) ensures s.clients[c].Some? && Mapped(s, s.clients[c].value) { ClientKnown(s, c); }
  }

  lemma TablesMapped(s: State)
    requires Inv(s)
    ensures !s.violated && (s.dpu != AwaitingFinish ==> {s.dpuLevel - 1, s.dpuLevel} <= s.mapped)
    ensures s.dpu == Rehashing ==> s.dpuLevel + 1 in s.mapped
  {
    hide TwoTables, OneTable, Exports;
  }

  /** While rehashing, the i-th new slice is client THREADS + i; otherwise client i serves slice i of the bottom
      table and client THREADS/2 + i slice i of the top table, whatever expansions came before. */
  lemma ClientsInOrder(level: int, run: seq<Action>, s: State, i: nat)
    requires Reaches(level, run, s) && i < HALF
    ensures s.dpu == Serving || s.dpu == Rehashing ==>
      |s.clients| >= THREADS && s.clients[i] == Some(Slice(s.dpuLevel - 1, i)) && s.clients[HALF + i] == Some(Slice(s.dpuLevel, i))
    ensures s.dpu == Rehashing ==> |s.clients| == THREADS + HALF && s.clients[THREADS + i] == Some(Slice(s.dpuLevel + 1, i))
  {
    hide Possible, After;
    RunInv(level, run);
    var l := s.dpuLevel;
    assert TwoTables(l)[i] == OneTable(l - 1)[i] && TwoTables(l)[HALF + i] == OneTable(l)[i];
    if s.dpu == Rehashing {
      assert s.clients[i] == TwoTables(l)[i] && s.clients[HALF + i] == TwoTables(l)[HALF + i];
      assert s.clients[THREADS + i] == OneTable(l + 1)[i];
    }
  }

  ghost predicate Quiescent(s: State) {
    s.dpu == Serving && s.host == Idle && s.toHost == [] && s.toDpu == [] && s.flying == multiset{}
  }

  /** Both sides hold the same level whenever nothing is under way, and exactly the two tables are mapped. */
  lemma QuiescentAgree(level: int, run: seq<Action>, s: State)
    requires Reaches(level, run, s) && Quiescent(s)
    ensures s.hostLevel == s.dpuLevel && s.mapped == {s.dpuLevel - 1, s.dpuLevel}
  {
    hide Possible, After;
    RunInv(level, run);
  }

  // ---------- Progress ----------

  /** Steps of the protocol itself, as opposed to new requests. */
  ghost predicate Internal(a: Action) {
    a.DpuReceive? || a.DpuEndRehash? || a.HostReceive? || a.HostExchange? || a.DmaDone?
  }

  /** How many messages and turns are left at most. */
  ghost function Turns(s: State): nat {
    match s.dpu
    case Initialising => 20 + |s.toDpu|
    case Serving => if s.host == Finishing then 1 else 0
    case AwaitingMmaps => if s.toHost != [] then 11 + (if s.host == Finishing then 1 else 0) else 6 + s.toReceive
    case Rehashing => 6
    case AwaitingFinish => if s.toHost != [] then 5 else if s.host == Finishing then 4 else 3
    case Ended => |s.toHost| + (if s.host == Finishing then 1 else 0)
  }

  /** How many internal steps are left at most. */
  ghost function Rank(s: State): nat {
    Turns(s) + |s.flying|
  }

  lemma TurnsAtFirst(s: State)
    requires s.toDpu != [] && s.dpu == Initialising
    ensures Turns(DpuReceived(s)) < Turns(s)
  {
    hide Put;
  }

  lemma TurnsLater(s: State)
    requires Inv(s) && Enabled(s, DpuReceive) && s.dpu != Initialising
    ensures Turns(DpuReceived(s)) < Turns(s)
  {
    if s.dpu == AwaitingMmaps {
      assert s.toDpu[0] == Exports(s.dpuLevel + 1)[HALF - s.toReceive];
    }
    hide TwoTables, OneTable, Exports;
  }

  lemma TurnsOnHost(s: State, a: Action)
    requires Inv(s) && Enabled(s, a) && (a == HostReceive || a == HostExchange)
    ensures Turns(Stepped(s, a)) < Turns(s) && Stepped(s, a).flying == s.flying
  {
    hide TwoTables, OneTable, Exports;
  }

  lemma TurnsAtEnd(s: State)
    requires Enabled(s, DpuEndRehash)
    ensures Turns(Stepped(s, DpuEndRehash)) < Turns(s)
  {
  }

  lemma TurnsOfDma(s: State, x: Slice)
    requires Enabled(s, DmaDone(x))
    ensures Turns(Stepped(s, DmaDone(x))) == Turns(s)
  {
  }

  lemma RankDecreases(s: State, a: Action)
    requires Inv(s) && Enabled(s, a) && Internal(a)
    ensures Rank(Stepped(s, a)) < Rank(s)
  {
    hide Inv, Turns, DpuReceived, HostReceived;
    match a
    case DpuReceive =>
      ReceiveFlying(s);
      if s.dpu == Initialising { TurnsAtFirst(s); } else { TurnsLater(s); }
    case DpuEndRehash => TurnsAtEnd(s);
    case DmaDone(x) =>
      TurnsOfDma(s, x);
      assert |s.flying - multiset{x}| == |s.flying| - 1;
    case HostReceive => TurnsOnHost(s, a);
    case HostExchange => TurnsOnHost(s, a);
  }

  /** No deadlock: while anything is left to do, some internal step is possible. */
  lemma NeverStuck(s: State)
    requires Inv(s) && Rank(s) > 0 && s.host != Stopped
    ensures exists a :: Internal(a) && Enabled(s, a)
  {
    if s.host == Finishing { assert Enabled(s, HostExchange); }
    else if s.toHost != [] { assert Enabled(s, HostReceive); }
    else if s.flying != multiset{} {
      var x :| x in s.flying;
      assert Enabled(s, DmaDone(x));
    }
    else if s.dpu == Rehashing { assert Enabled(s, DpuEndRehash); }
    else { assert Enabled(s, DpuReceive); }
  }

  /** An internal run leaves the DPU serving, ended or waiting, and at rank 0 a serving DPU faces an idle host. */
  lemma RankZeroQuiescent(s: State)
    requires Inv(s) && Rank(s) == 0 && s.dpu != Ended
    ensures Quiescent(s)
  {
  }
}
