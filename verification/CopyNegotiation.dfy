/**
 The negotiation in front of a DMA copy between host and DPU: the host says whether it has the file and how
 large it is, the DPU checks that exactly one side has it and answers, the host exports its buffer, the DPU
 copies and reports. Two FIFO channels; a run is any interleaving of both sides' steps.
 */
module CopyNegotiation {

  // ---------- Sizes on the wire ----------

  /** ntohq, which is also htonq: the bytes swapped on a little-endian machine. */
  function Ntohq(little: bool, v: bv64): bv64 {
    if !little then v
    else
      ((v & 0xff) << 56) | (((v >> 8) & 0xff) << 48) | (((v >> 16) & 0xff) << 40) | (((v >> 24) & 0xff) << 32)
      | (((v >> 32) & 0xff) << 24) | (((v >> 40) & 0xff) << 16) | (((v >> 48) & 0xff) << 8) | ((v >> 56) & 0xff)
  }

  lemma NtohqInverse(little: bool, v: bv64)
    ensures Ntohq(little, Ntohq(little, v)) == v
  {
  }

  /** On a little-endian machine byte k of the result is byte 7 - k of the value. */
  lemma NtohqBytes(v: bv64)
    ensures var w := Ntohq(true, v);
      && w & 0xff == v >> 56 && (w >> 8) & 0xff == (v >> 48) & 0xff && (w >> 16) & 0xff == (v >> 40) & 0xff
      && (w >> 24) & 0xff == (v >> 32) & 0xff && (w >> 32) & 0xff == (v >> 24) & 0xff && (w >> 40) & 0xff == (v >> 16) & 0xff
      && (w >> 48) & 0xff == (v >> 8) & 0xff && w >> 56 == v & 0xff
    ensures Ntohq(false, v) == v
  {
  }

  // ---------- The two sides ----------

  datatype Comch = Negotiating | Complete | Error

  datatype Msg = Direction(inHost: bool, size: bv64) | Export | Status(ok: bool)

  /** `data` stands for the contents of the file buffer. */
  datatype Host = Host(sender: bool, size: bv64, comch: Comch, data: int)

  /** Where the DPU is: setting up, in its wait loop, copying, ended, or ended before the first copy without a word.
      Once it has ended it waits for the host to close the connection and still runs its callback. */
  datatype Phase = Starting | Waiting | Copying | Ended | GaveUp

  datatype Dpu = Dpu(sender: bool, size: bv64, max: bv64, comch: Comch, phase: Phase, copies: nat, data: int)

  /** `lost`: a status message for the host could not be sent. */
  datatype State = State(host: Host, dpu: Dpu, toHost: seq<Msg>, toDpu: seq<Msg>, lost: bool)

  /** What both sides start with. */
  datatype Setup = Setup(little: bool, ops: nat, hostSender: bool, hostSize: bv64, hostData: int,
                         dpuSender: bool, dpuSize: bv64, max: bv64, dpuData: int)

  /** The host has sent its request. */
  function Init(c: Setup): State {
    State(Host(c.hostSender, c.hostSize, Negotiating, c.hostData),
          Dpu(c.dpuSender, c.dpuSize, 0, Negotiating, Starting, 0, c.dpuData),
          [], [Direction(c.hostSender, if c.hostSender then Ntohq(c.little, c.hostSize) else 0)], false)
  }

  /** How the DPU's set-up ends: well, before the size limit is known, or after that. */
  datatype Startup = Started | NoLimit | NotStarted

  /** `ok` says whether allocations, exports and the sends that are checked succeed in the step, `sent` whether a
      status message does, which is not checked. */
  datatype Action =
    | HostReceive(ok: bool, sent: bool)
    | DpuStart(how: Startup)
    | DpuReceive(ok: bool, sent: bool)
    | DpuPrepare(ok: bool)
    | DpuCopy(ok: bool, sent: bool)
    | DpuReport(sent: bool)

  predicate Enabled(c: Setup, s: State, a: Action) {
    match a
    case HostReceive(_, _) => s.host.comch == Negotiating && s.toHost != []
    case DpuStart(_) => s.dpu.phase == Starting
    case DpuReceive(_, _) =>
      s.toDpu != [] && ((s.dpu.phase == Waiting && s.dpu.comch == Negotiating) || s.dpu.phase == Ended || s.dpu.phase == GaveUp)
    case DpuPrepare(_) => s.dpu.comch != Negotiating && s.dpu.phase == Waiting
    case DpuCopy(_, _) => s.dpu.phase == Copying && s.dpu.copies < c.ops
    case DpuReport(_) => s.dpu.phase == Copying && s.dpu.copies >= c.ops
  }

  /** host_recv_event_cb */
  function HostReceived(c: Setup, s: State, ok: bool, sent: bool): State
    requires s.toHost != []
  {
    var rest, h := s.toHost[1..], s.host;
    var complaint := if sent then [Status(false)] else [];
    match s.toHost[0]
    case Direction(_, size) =>
      var h' := if h.sender then h else Host(h.sender, Ntohq(c.little, size), h.comch, h.data);
      if ok then State(h', s.dpu, rest, s.toDpu + [Export], s.lost)
      else State(Host(h'.sender, h'.size, Error, h'.data), s.dpu, rest, s.toDpu + complaint, s.lost)
    case Status(good) => State(Host(h.sender, h.size, if good then Complete else Error, h.data), s.dpu, rest, s.toDpu, s.lost)
    case Export => State(Host(h.sender, h.size, Error, h.data), s.dpu, rest, s.toDpu + complaint, s.lost)
  }

  /** The file does not fit the hardware's limit. */
  predicate TooLarge(size: bv64, max: bv64) { size > max }

  lemma Within(size: bv64, max: bv64)
    ensures TooLarge(size, max) <==> !(size <= max)
  {
  }

  function WithComch(d: Dpu, comch: Comch): Dpu {
    Dpu(d.sender, d.size, d.max, comch, d.phase, d.copies, d.data)
  }

  /** send_status_msg on the DPU, which ignores a failure. */
  function Told(s: State, d: Dpu, toDpu: seq<Msg>, good: bool, sent: bool): State {
    State(s.host, d, if sent then s.toHost + [Status(good)] else s.toHost, toDpu, s.lost || !sent)
  }

  /** dpu_recv_event_cb */
  function DpuReceived(c: Setup, s: State, ok: bool, sent: bool): State
    requires s.toDpu != []
  {
    var rest, d := s.toDpu[1..], s.dpu;
    match s.toDpu[0]
    case Direction(inHost, size) =>
      if d.sender == inHost then Told(s, WithComch(d, Error), rest, false, sent)
      else
        var d' := if d.sender then d else Dpu(d.sender, Ntohq(c.little, size), d.max, d.comch, d.phase, d.copies, d.data);
        if TooLarge(d'.size, d'.max) || !ok then Told(s, WithComch(d', Error), rest, false, sent)
        else State(s.host, d', s.toHost + [Direction(!d'.sender, if d'.sender then Ntohq(c.little, d'.size) else 0)], rest, s.lost)
    case Export =>
      if ok then State(s.host, WithComch(d, Complete), s.toHost, rest, s.lost)
      else Told(s, WithComch(d, Error), rest, false, sent)
    case Status(good) =>
      State(s.host, if good then d else WithComch(d, Error), s.toHost, rest, s.lost)
  }

  function InPhase(d: Dpu, phase: Phase): Dpu {
    Dpu(d.sender, d.size, d.max, d.comch, phase, d.copies, d.data)
  }

  function Stepped(c: Setup, s: State, a: Action): State
    requires Enabled(c, s, a)
  {
    var h, d := s.host, s.dpu;
    match a
    case HostReceive(ok, sent) => HostReceived(c, s, ok, sent)
    case DpuStart(how) =>
      var d' := Dpu(d.sender, d.size, if how == NoLimit then d.max else c.max, d.comch, if how == Started then Waiting else GaveUp, d.copies, d.data);
      State(h, d', s.toHost, s.toDpu, s.lost)
    case DpuReceive(ok, sent) => DpuReceived(c, s, ok, sent)
    case DpuPrepare(ok) =>
      State(h, InPhase(d, if d.comch == Error then Ended else if ok then Copying else GaveUp), s.toHost, s.toDpu, s.lost)
    case DpuCopy(ok, sent) =>
      if !ok then Told(s, InPhase(d, Ended), s.toDpu, false, sent)
      else if d.sender then
        State(Host(h.sender, h.size, h.comch, d.data), Dpu(d.sender, d.size, d.max, d.comch, d.phase, d.copies + 1, d.data), s.toHost, s.toDpu, s.lost)
      else State(h, Dpu(d.sender, d.size, d.max, d.comch, d.phase, d.copies + 1, h.data), s.toHost, s.toDpu, s.lost)
    case DpuReport(sent) => Told(s, InPhase(d, Ended), s.toDpu, true, sent)
  }

  // ---------- Runs ----------

  ghost predicate Possible(c: Setup, run: seq<Action>) {
    run == [] || (Possible(c, run[..|run| - 1]) && Enabled(c, After(c, run[..|run| - 1]), run[|run| - 1]))
  }

  ghost function After(c: Setup, run: seq<Action>): State {
    if run == [] then Init(c)
    else
      var s := After(c, run[..|run| - 1]);
      if Enabled(c, s, run[|run| - 1]) then Stepped(c, s, run[|run| - 1]) else s
  }

  ghost predicate Reaches(c: Setup, run: seq<Action>, s: State) {
    Possible(c, run) && s == After(c, run)
  }

  // ---------- What every run keeps ----------

  /** The size of the file of the side that has it. */
  function FileSize(c: Setup): bv64 { if c.hostSender then c.hostSize else c.dpuSize }

  function FileData(c: Setup): int { if c.hostSender then c.hostData else c.dpuData }

  /** Exactly one side sends, and the DPU holds the size of that side's file, which is within its limit. */
  predicate DpuAgreed(c: Setup, s: State) {
    c.hostSender != c.dpuSender && s.dpu.size == FileSize(c) && !TooLarge(FileSize(c), s.dpu.max)
  }

  predicate Agreed(c: Setup, s: State) {
    DpuAgreed(c, s) && s.host.size == FileSize(c)
  }

  /** Sides keep their roles; data moves only from the sender to the other side, with the copies. */
  predicate Roles(c: Setup, s: State) {
    && s.host.sender == c.hostSender && s.dpu.sender == c.dpuSender
    && (s.dpu.max == c.max || s.dpu.phase == Starting || s.dpu.phase == GaveUp)
    && (c.hostSender ==> s.host.size == c.hostSize) && (c.dpuSender ==> s.dpu.size == c.dpuSize)
    && s.dpu.copies <= c.ops
    && (s.dpu.copies == 0 ==> s.host.data == c.hostData && s.dpu.data == c.dpuData)
    && (s.dpu.copies > 0 ==> s.host.data == s.dpu.data == FileData(c))
  }

  /** The stages of a run, as long as nothing has gone wrong that anyone was to be told of. */
  predicate OnCourse(c: Setup, s: State) {
    !s.lost && (Asked(c, s) || Answered(c, s) || Exported(c, s) || Working(c, s) || Finished(c, s))
  }

  /** The DPU has not begun to copy and both sides are negotiating. */
  predicate Early(s: State) {
    s.host.comch == Negotiating && s.dpu.comch == Negotiating && s.dpu.phase in {Starting, Waiting, GaveUp} && s.dpu.copies == 0
  }

  predicate Asked(c: Setup, s: State) {
    Early(s) && s.toHost == [] && s.toDpu == Init(c).toDpu
  }

  predicate Answered(c: Setup, s: State) {
    && Early(s) && s.dpu.phase != Starting && DpuAgreed(c, s) && s.toDpu == []
    && s.toHost == [Direction(!c.dpuSender, if c.dpuSender then Ntohq(c.little, c.dpuSize) else 0)]
  }

  predicate Exported(c: Setup, s: State) {
    Early(s) && s.dpu.phase != Starting && Agreed(c, s) && s.toDpu == [Export] && s.toHost == []
  }

  predicate Working(c: Setup, s: State) {
    && s.host.comch == Negotiating && s.dpu.comch == Complete && s.dpu.phase in {Waiting, Copying, GaveUp}
    && (s.dpu.phase != Copying ==> s.dpu.copies == 0) && Agreed(c, s) && s.toDpu == [] && s.toHost == []
  }

  predicate Finished(c: Setup, s: State) {
    && s.host.comch == Complete && s.dpu.comch == Complete && s.dpu.phase == Ended && s.dpu.copies == c.ops
    && Agreed(c, s) && s.toDpu == [] && s.toHost == []
  }

  /** The one status message for the host is under way, or was lost. */
  predicate Telling(s: State, good: bool) {
    s.host.comch == Negotiating && s.toDpu == [] && s.toHost == if s.lost then [] else [Status(good)]
  }

  predicate Reported(c: Setup, s: State) {
    Telling(s, true) && s.dpu.comch == Complete && s.dpu.phase == Ended && s.dpu.copies == c.ops && Agreed(c, s)
  }

  /** The DPU has failed. */
  predicate Refused(s: State) {
    && (Telling(s, false) || (s.host.comch == Error && !s.lost && s.toHost == [] && s.toDpu == []))
    && (s.dpu.phase != Ended ==> s.dpu.copies == 0)
    && ((s.dpu.comch == Error && s.dpu.phase in {Waiting, Ended, GaveUp}) || (s.dpu.comch == Complete && s.dpu.phase == Ended))
  }

  /** The host has failed, and may or may not have been able to say so. */
  predicate HostFailed(s: State) {
    && s.host.comch == Error && !s.lost && s.toHost == [] && (s.toDpu == [Status(false)] || s.toDpu == [])
    && s.dpu.comch == Negotiating && s.dpu.phase in {Waiting, GaveUp} && s.dpu.copies == 0
  }

  predicate Inv(c: Setup, s: State) {
    && Roles(c, s)
    && (s.dpu.copies > 0 ==> Agreed(c, s))
    && (OnCourse(c, s) || Reported(c, s) || Refused(s) || HostFailed(s))
  }

  lemma FailedSteps(c: Setup, s: State, a: Action)
    requires (Refused(s) || HostFailed(s)) && Roles(c, s) && (s.dpu.copies > 0 ==> Agreed(c, s)) && Enabled(c, s, a)
    ensures Inv(c, Stepped(c, s, a))
  {
    hide TooLarge, Ntohq, OnCourse, Reported;
    var s' := Stepped(c, s, a);
    assert Refused(s') || HostFailed(s');
  }

  lemma AskedSteps(c: Setup, s: State, a: Action)
    requires !s.lost && Roles(c, s) && Asked(c, s) && Enabled(c, s, a)
    ensures Inv(c, Stepped(c, s, a))
  {
    hide TooLarge, Ntohq, Exported, Working, Finished, Reported, HostFailed;
    NtohqInverse(c.little, c.hostSize);
    var s' := Stepped(c, s, a);
    if a.DpuStart? {
      assert Asked(c, s');
    } else {
      assert s.toDpu[1..] == [];
      assert Refused(s') || Answered(c, s');
    }
  }

  lemma AnsweredSteps(c: Setup, s: State, a: Action)
    requires !s.lost && Roles(c, s) && Answered(c, s) && Enabled(c, s, a)
    ensures Inv(c, Stepped(c, s, a))
  {
    hide TooLarge, Ntohq, Asked, Working, Finished, Reported, Refused;
    NtohqInverse(c.little, c.dpuSize);
    var s' := Stepped(c, s, a);
    assert a.HostReceive? && s.toHost[1..] == [];
    assert HostFailed(s') || Exported(c, s');
  }

  lemma ExportedSteps(c: Setup, s: State, a: Action)
    requires !s.lost && Roles(c, s) && Exported(c, s) && Enabled(c, s, a)
    ensures Inv(c, Stepped(c, s, a))
  {
    hide TooLarge, Ntohq, Asked, Answered, Finished, Reported, HostFailed;
    var s' := Stepped(c, s, a);
    assert a.DpuReceive? && s.toDpu[1..] == [];
    assert Refused(s') || Working(c, s');
  }

  lemma WorkingSteps(c: Setup, s: State, a: Action)
    requires !s.lost && Roles(c, s) && Working(c, s) && Enabled(c, s, a)
    ensures Inv(c, Stepped(c, s, a))
  {
    hide TooLarge, Ntohq, Asked, Answered, Exported, Finished, HostFailed;
    var s' := Stepped(c, s, a);
    assert Refused(s') || Working(c, s') || Reported(c, s');
  }

  lemma LastSteps(c: Setup, s: State, a: Action)
    requires Roles(c, s) && (Reported(c, s) || (!s.lost && Finished(c, s))) && Enabled(c, s, a)
    ensures Inv(c, Stepped(c, s, a))
  {
    hide TooLarge, Ntohq, Asked, Answered, Exported, Working, HostFailed;
    var s' := Stepped(c, s, a);
    assert Finished(c, s');
  }

  lemma StepInv(c: Setup, s: State, a: Action)
    requires Inv(c, s) && Enabled(c, s, a)
    ensures Inv(c, Stepped(c, s, a))
  {
    hide TooLarge, Ntohq, Stepped, Enabled, Roles, Asked, Answered, Exported, Working, Reported, Finished, Refused, HostFailed;
    if Refused(s) || HostFailed(s) { FailedSteps(c, s, a); }
    else if Reported(c, s) || Finished(c, s) { LastSteps(c, s, a); }
    else if Asked(c, s) { AskedSteps(c, s, a); }
    else if Answered(c, s) { AnsweredSteps(c, s, a); }
    else if Exported(c, s) { ExportedSteps(c, s, a); }
    else { WorkingSteps(c, s, a); }
  }

  lemma {:induction false} RunInv(c: Setup, run: seq<Action>)
    requires Possible(c, run)
    ensures Inv(c, After(c, run))
  {
    hide Inv, Stepped, Enabled;
    if run == [] {
      InitInv(c);
    } else {
      RunInv(c, run[..|run| - 1]);
      StepInv(c, After(c, run[..|run| - 1]), run[|run| - 1]);
    }
  }

  lemma InitInv(c: Setup)
    ensures Inv(c, Init(c))
  {
    hide TooLarge, Ntohq;
    assert Asked(c, Init(c));
  }

  // ---------- Results ----------

  lemma SuccessAgreed(c: Setup, run: seq<Action>, s: State)
    requires Reaches(c, run, s) && s.host.comch == Complete
    ensures c.hostSender != c.dpuSender && s.host.size == s.dpu.size == FileSize(c) && !TooLarge(FileSize(c), c.max)
    ensures s.dpu.phase == Ended && s.dpu.copies == c.ops
    ensures c.ops > 0 ==> s.host.data == s.dpu.data == FileData(c)
  {
    hide Possible, After, Ntohq, TooLarge;
    RunInv(c, run);
  }

  /** The host only sees success after all copies were made, with exactly one sender, the same size on both
      sides, and that size within the limit; then both buffers hold the sender's file. */
  lemma SuccessMeansCopied(c: Setup, run: seq<Action>, s: State)
    requires Reaches(c, run, s) && s.host.comch == Complete
    ensures c.hostSender != c.dpuSender && s.host.size == s.dpu.size == FileSize(c) && FileSize(c) <= c.max
    ensures s.dpu.phase == Ended && s.dpu.copies == c.ops
    ensures c.ops > 0 ==> s.host.data == s.dpu.data == FileData(c)
  {
    hide Reaches, TooLarge, FileSize, FileData;
    SuccessAgreed(c, run, s);
    Within(FileSize(c), c.max);
  }

  /** No copy is ever made before both sides agree, and the sender's file is never overwritten. */
  lemma CopiesOnlyWhenAgreed(c: Setup, run: seq<Action>, s: State)
    requires Reaches(c, run, s)
    ensures s.dpu.copies > 0 || s.dpu.phase == Copying ==> Agreed(c, s) && s.dpu.max == c.max
    ensures c.hostSender != c.dpuSender ==> (if c.hostSender then s.host.data else s.dpu.data) == FileData(c)
  {
    hide Possible, After, Ntohq, TooLarge;
    RunInv(c, run);
    CopyingIsCopied(c, s);
  }

  lemma CopyingIsCopied(c: Setup, s: State)
    requires Inv(c, s)
    ensures s.dpu.copies > 0 || s.dpu.phase == Copying ==> Agreed(c, s) && s.dpu.phase != Starting && s.dpu.phase != GaveUp
  {
    hide Ntohq, TooLarge, Roles;
  }

  ghost predicate DeadEnd(c: Setup, s: State) {
    forall a :: !Enabled(c, s, a)
  }

  /** When nothing more can happen, the host has its answer, except exactly when its one status message could not be
      sent, or the DPU had ended silently, for want of set-up or of buffers, and the negotiation was completed. */
  lemma HostLeftWaitingExactly(c: Setup, run: seq<Action>, s: State)
    requires Reaches(c, run, s) && DeadEnd(c, s)
    ensures s.host.comch == Negotiating <==> s.lost || (s.dpu.phase == GaveUp && s.dpu.comch == Complete)
  {
    hide Possible, After, Ntohq, TooLarge;
    RunInv(c, run);
    assert !Enabled(c, s, HostReceive(true, true)) && !Enabled(c, s, DpuStart(Started)) && !Enabled(c, s, DpuReceive(true, true));
    assert !Enabled(c, s, DpuPrepare(true)) && !Enabled(c, s, DpuCopy(true, true)) && !Enabled(c, s, DpuReport(true));
  }

  lemma Extend(c: Setup, run: seq<Action>, s: State, a: Action) returns (longer: seq<Action>)
    requires Reaches(c, run, s) && Enabled(c, s, a)
    ensures longer == run + [a] && Reaches(c, longer, Stepped(c, s, a))
  {
    hide Stepped, Enabled;
    longer := run + [a];
    assert longer[..|longer| - 1] == run;
  }

  ghost predicate Negotiable(c: Setup) {
    c.hostSender != c.dpuSender && !TooLarge(FileSize(c), c.max)
  }

  lemma AttainAnswered(c: Setup, how: Startup) returns (run: seq<Action>, s: State)
    requires Negotiable(c) && how != NoLimit
    ensures Reaches(c, run, s) && run != [] && run[0] == DpuStart(how)
    ensures !s.lost && Roles(c, s) && Answered(c, s) && s.dpu.phase == (if how == Started then Waiting else GaveUp)
  {
    hide TooLarge, Ntohq, Reaches;
    NtohqInverse(c.little, c.hostSize);
    run, s := [], Init(c);
    ReachesInit(c);
    run := Extend(c, run, s, DpuStart(how));
    s := Stepped(c, s, DpuStart(how));
    run := Extend(c, run, s, DpuReceive(true, true));
    s := DpuReceived(c, s, true, true);
  }

  /** The negotiation can be completed whether or not the DPU has got its context started. */
  lemma AttainWorking(c: Setup, how: Startup) returns (run: seq<Action>, s: State)
    requires Negotiable(c) && how != NoLimit
    ensures Reaches(c, run, s) && run != [] && run[0] == DpuStart(how)
    ensures !s.lost && Working(c, s) && s.dpu.phase == (if how == Started then Waiting else GaveUp)
  {
    hide TooLarge, Ntohq, Reaches;
    NtohqInverse(c.little, c.dpuSize);
    run, s := AttainAnswered(c, how);
    run := Extend(c, run, s, HostReceive(true, true));
    s := HostReceived(c, s, true, true);
    run := Extend(c, run, s, DpuReceive(true, true));
    s := DpuReceived(c, s, true, true);
  }

  lemma ReachesInit(c: Setup)
    ensures Reaches(c, [], Init(c))
  {
  }

  /** All copies made, and the report sent or not. */
  lemma {:induction false} AttainReported(c: Setup, run0: seq<Action>, s0: State, sent: bool) returns (run: seq<Action>, s: State)
    requires Reaches(c, run0, s0) && !s0.lost && Working(c, s0) && s0.dpu.phase == Copying && s0.dpu.copies <= c.ops
    ensures Reaches(c, run, s) && Reported(c, s) && s.lost == !sent
    decreases c.ops - s0.dpu.copies
  {
    hide TooLarge, Ntohq, Reaches;
    if s0.dpu.copies < c.ops {
      run := Extend(c, run0, s0, DpuCopy(true, true));
      run, s := AttainReported(c, run, Stepped(c, s0, DpuCopy(true, true)), sent);
    } else {
      run := Extend(c, run0, s0, DpuReport(sent));
      s := Stepped(c, s0, DpuReport(sent));
    }
  }

  lemma AttainEnd(c: Setup, sent: bool) returns (run: seq<Action>, s: State)
    requires Negotiable(c)
    ensures Reaches(c, run, s) && Reported(c, s) && s.lost == !sent
  {
    hide TooLarge, Ntohq, Reaches;
    run, s := AttainWorking(c, Started);
    run := Extend(c, run, s, DpuPrepare(true));
    s := Stepped(c, s, DpuPrepare(true));
    run, s := AttainReported(c, run, s, sent);
  }

  ghost predicate Attainable(c: Setup, s: State) {
    exists run :: Reaches(c, run, s)
  }

  /** A setup can end in success exactly when one side has the file and it fits. */
  lemma SucceedsExactly(c: Setup)
    ensures (exists s :: Attainable(c, s) && s.host.comch == Complete) <==> c.hostSender != c.dpuSender && FileSize(c) <= c.max
  {
    hide TooLarge, Ntohq, Reaches;
    Within(FileSize(c), c.max);
    if Negotiable(c) {
      var run, s := AttainEnd(c, true);
      run := Extend(c, run, s, HostReceive(true, true));
      s := HostReceived(c, s, true, true);
      assert Attainable(c, s);
    }
    forall s | Attainable(c, s) && s.host.comch == Complete ensures Negotiable(c) {
      var run :| Reaches(c, run, s);
      SuccessAgreed(c, run, s);
    }
  }

  /** A reachable dead end with the host still waiting. */
  ghost predicate LeftWaiting(c: Setup, run: seq<Action>, s: State) {
    Reaches(c, run, s) && DeadEnd(c, s) && s.host.comch == Negotiating
  }

  /** All three do happen, in every setup that could succeed: the DPU's context does not start, its buffers cannot
      be set up after a good negotiation, or all copies are made and the report cannot be sent. */
  lemma HostCanBeLeftWaiting(c: Setup) returns (unstarted: seq<Action>, unprepared: seq<Action>, unheard: seq<Action>)
    requires Negotiable(c)
    ensures exists s :: LeftWaiting(c, unstarted, s) && s.dpu.phase == GaveUp
    ensures unstarted != [] && unstarted[0] == DpuStart(NotStarted)
    ensures exists s :: LeftWaiting(c, unprepared, s) && s.dpu.phase == GaveUp
    ensures unprepared != [] && unprepared[0] == DpuStart(Started)
    ensures exists s :: LeftWaiting(c, unheard, s) && s.lost && s.dpu.copies == c.ops
  {
    hide TooLarge, Ntohq, Reaches;
    var s;
    unstarted, s := AttainWorking(c, NotStarted);
    assert LeftWaiting(c, unstarted, s);
    unprepared, s := AttainWorking(c, Started);
    unprepared := Extend(c, unprepared, s, DpuPrepare(false));
    s := Stepped(c, s, DpuPrepare(false));
    assert LeftWaiting(c, unprepared, s);
    unheard, s := AttainEnd(c, false);
    assert LeftWaiting(c, unheard, s);
  }
}
