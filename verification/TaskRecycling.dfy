/**
 The recycling of DMA tasks over buffer pairs: a few tasks are allocated with the first pairs and submitted;
 whenever one completes, its pair is released and it is submitted again with the next unused pair.
 */
module TaskRecycling {
  import opened Basics

  datatype Pair = Unused | Held(task: nat) | Busy(task: nat) | Released | NotStarted

  datatype Task = Allocated(pair: nat) | Running(pair: nat) | Finished | Freed | NeverStarted

  // ---------- Counting ----------

  function Count<T>(s: seq<T>, f: T -> bool): (n: nat)
    ensures n <= |s|
  {
    if s == [] then 0 else (if f(s[0]) then 1 else 0) + Count(s[1..], f)
  }

  lemma {:induction false} CountUpdate<T>(s: seq<T>, f: T -> bool, i: nat, x: T)
    requires i < |s|
    ensures Count(s[i := x], f) == Count(s, f) - (if f(s[i]) then 1 else 0) + (if f(x) then 1 else 0)
  {
    if i == 0 {
      assert s[i := x][1..] == s[1..];
    } else {
      assert s[i := x][1..] == s[1..][i - 1 := x];
      CountUpdate(s[1..], f, i - 1, x);
    }
  }

  lemma {:induction false} CountNone<T>(s: seq<T>, f: T -> bool)
    requires forall i :: 0 <= i < |s| ==> !f(s[i])
    ensures Count(s, f) == 0
  {
    if s != [] { CountNone(s[1..], f); }
  }

  lemma {:induction false} CountSome<T>(s: seq<T>, f: T -> bool, i: nat)
    requires i < |s| && f(s[i])
    ensures Count(s, f) > 0
  {
    if i > 0 { CountSome(s[1..], f, i - 1); }
  }

  lemma {:induction false} CountAll<T>(s: seq<T>, f: T -> bool)
    requires Count(s, f) == |s|
    ensures forall i :: 0 <= i < |s| ==> f(s[i])
  {
    if s != [] { CountAll(s[1..], f); }
  }

  /** The first k pairs are in use or were, the others are not. */
  lemma {:induction false} PairsAddUp(pairs: seq<Pair>, k: nat)
    requires k <= |pairs| && forall p :: 0 <= p < |pairs| ==> (pairs[p].Unused? <==> p >= k)
    ensures Count(pairs, (p: Pair) => p.Released?) + Count(pairs, (p: Pair) => p.Busy?)
         + Count(pairs, (p: Pair) => p.Held?) + Count(pairs, (p: Pair) => p.NotStarted?) == k
  {
    if pairs != [] {
      PairsAddUp(pairs[1..], if k == 0 then 0 else k - 1);
    }
  }

  lemma {:induction false} TasksAddUp(tasks: seq<Task>)
    ensures Count(tasks, (t: Task) => t.Allocated?) + Count(tasks, (t: Task) => t.Running?) + Count(tasks, (t: Task) => t.Finished?)
         + Count(tasks, (t: Task) => t.Freed?) + Count(tasks, (t: Task) => t.NeverStarted?) == |tasks|
  {
    if tasks != [] { TasksAddUp(tasks[1..]); }
  }

  // ---------- The state ----------

  /** `idx`: the first pair not handed out yet. */
  datatype State = State(pairs: seq<Pair>, tasks: seq<Task>, idx: nat, completed: nat)

  function ReleasedIn(s: State): nat { Count(s.pairs, (p: Pair) => p.Released?) }
  function BusyIn(s: State): nat { Count(s.pairs, (p: Pair) => p.Busy?) }
  function HeldIn(s: State): nat { Count(s.pairs, (p: Pair) => p.Held?) }
  function NotStartedIn(s: State): nat { Count(s.pairs, (p: Pair) => p.NotStarted?) }
  function RunningIn(s: State): nat { Count(s.tasks, (t: Task) => t.Running?) }
  function FinishedIn(s: State): nat { Count(s.tasks, (t: Task) => t.Finished?) }
  function FreedIn(s: State): nat { Count(s.tasks, (t: Task) => t.Freed?) }
  function AllocatedIn(s: State): nat { Count(s.tasks, (t: Task) => t.Allocated?) }
  function NeverIn(s: State): nat { Count(s.tasks, (t: Task) => t.NeverStarted?) }

  /** Tasks and pairs point at each other, and the counters count. */
  ghost predicate Good(s: State) {
    && s.idx <= |s.pairs|
    && (forall p :: 0 <= p < |s.pairs| ==> (s.pairs[p].Unused? <==> p >= s.idx))
    && (forall t :: 0 <= t < |s.tasks| && s.tasks[t].Running? ==> s.tasks[t].pair < |s.pairs| && s.pairs[s.tasks[t].pair] == Busy(t))
    && (forall t :: 0 <= t < |s.tasks| && s.tasks[t].Allocated? ==> s.tasks[t].pair < |s.pairs| && s.pairs[s.tasks[t].pair] == Held(t))
    && s.completed == ReleasedIn(s)
    && BusyIn(s) == RunningIn(s)
    && NotStartedIn(s) == NeverIn(s)
    && HeldIn(s) == AllocatedIn(s)
    && (FinishedIn(s) > 0 ==> s.idx == |s.pairs|)
  }

  /** Every pair handed out is completed, in flight, allocated or was never started. */
  lemma Conservation(s: State)
    requires Good(s)
    ensures s.completed + RunningIn(s) + HeldIn(s) + NeverIn(s) == s.idx <= |s.pairs|
    ensures HeldIn(s) + RunningIn(s) + FinishedIn(s) + FreedIn(s) + NeverIn(s) == |s.tasks|
  {
    PairsAddUp(s.pairs, s.idx);
    TasksAddUp(s.tasks);
  }

  /** Once all tasks are submitted, polling has nothing to wait for and yet is not done exactly when a first
      submission failed, or all tasks were lost to failed submissions before the pairs ran out. */
  lemma StalledExactly(s: State)
    requires Good(s) && HeldIn(s) == 0 && RunningIn(s) == 0
    ensures s.completed < |s.pairs| <==> NeverIn(s) > 0 || (FreedIn(s) == |s.tasks| && s.idx < |s.pairs|)
  {
    Conservation(s);
  }

  /** Polling is done exactly when every pair is released: none is left in flight. */
  lemma DoneExactly(s: State)
    requires Good(s)
    ensures s.completed <= |s.pairs|
    ensures s.completed == |s.pairs| <==> forall p :: 0 <= p < |s.pairs| ==> s.pairs[p].Released?
    ensures s.completed == |s.pairs| ==> RunningIn(s) == 0 && s.idx == |s.pairs|
  {
    Conservation(s);
    if s.completed == |s.pairs| {
      CountAll(s.pairs, (p: Pair) => p.Released?);
    } else if forall p :: 0 <= p < |s.pairs| ==> s.pairs[p].Released? {
      AllCounted(s.pairs, (p: Pair) => p.Released?);
    }
  }

  lemma {:induction false} AllCounted<T>(s: seq<T>, f: T -> bool)
    requires forall i :: 0 <= i < |s| ==> f(s[i])
    ensures Count(s, f) == |s|
  {
    if s != [] { AllCounted(s[1..], f); }
  }

  // ---------- The steps on values ----------

  function Set(s: State, p: nat, pair: Pair, t: nat, task: Task, idx: nat, completed: nat): State
    requires p < |s.pairs| && t < |s.tasks|
  {
    State(s.pairs[p := pair], s.tasks[t := task], idx, completed)
  }

  /** How the counts change when one pair and one task change. */
  lemma SetCounts(s: State, p: nat, pair: Pair, t: nat, task: Task, idx: nat, completed: nat)
    requires p < |s.pairs| && t < |s.tasks|
    ensures var s' := Set(s, p, pair, t, task, idx, completed);
      && ReleasedIn(s') == ReleasedIn(s) - One(s.pairs[p].Released?) + One(pair.Released?)
      && BusyIn(s') == BusyIn(s) - One(s.pairs[p].Busy?) + One(pair.Busy?)
      && HeldIn(s') == HeldIn(s) - One(s.pairs[p].Held?) + One(pair.Held?)
      && NotStartedIn(s') == NotStartedIn(s) - One(s.pairs[p].NotStarted?) + One(pair.NotStarted?)
      && RunningIn(s') == RunningIn(s) - One(s.tasks[t].Running?) + One(task.Running?)
      && FinishedIn(s') == FinishedIn(s) - One(s.tasks[t].Finished?) + One(task.Finished?)
      && FreedIn(s') == FreedIn(s) - One(s.tasks[t].Freed?) + One(task.Freed?)
      && NeverIn(s') == NeverIn(s) - One(s.tasks[t].NeverStarted?) + One(task.NeverStarted?)
      && AllocatedIn(s') == AllocatedIn(s) - One(s.tasks[t].Allocated?) + One(task.Allocated?)
  {
    CountUpdate(s.pairs, (p: Pair) => p.Released?, p, pair);
    CountUpdate(s.pairs, (p: Pair) => p.Busy?, p, pair);
    CountUpdate(s.pairs, (p: Pair) => p.Held?, p, pair);
    CountUpdate(s.pairs, (p: Pair) => p.NotStarted?, p, pair);
    CountUpdate(s.tasks, (t: Task) => t.Running?, t, task);
    CountUpdate(s.tasks, (t: Task) => t.Finished?, t, task);
    CountUpdate(s.tasks, (t: Task) => t.Freed?, t, task);
    CountUpdate(s.tasks, (t: Task) => t.NeverStarted?, t, task);
    CountUpdate(s.tasks, (t: Task) => t.Allocated?, t, task);
  }

  function One(b: bool): int { if b then 1 else 0 }

  /** A first submission: it runs from now on, or is never heard of again. */
  function Submitted(s: State, t: nat, ok: bool): State
    requires t < |s.tasks| && s.tasks[t].Allocated? && s.tasks[t].pair < |s.pairs|
  {
    var p := s.tasks[t].pair;
    if ok then Set(s, p, Busy(t), t, Running(p), s.idx, s.completed)
    else Set(s, p, NotStarted, t, NeverStarted, s.idx, s.completed)
  }

  lemma SubmittedGood(s: State, t: nat, ok: bool)
    requires Good(s) && t < |s.tasks| && s.tasks[t].Allocated?
    ensures Good(Submitted(s, t, ok)) && HeldIn(Submitted(s, t, ok)) == HeldIn(s) - 1
  {
    hide ReleasedIn, BusyIn, HeldIn, NotStartedIn, RunningIn, FinishedIn, FreedIn, NeverIn, AllocatedIn;
    var p := s.tasks[t].pair;
    if ok { SetCounts(s, p, Busy(t), t, Running(p), s.idx, s.completed); }
    else { SetCounts(s, p, NotStarted, t, NeverStarted, s.idx, s.completed); }
  }

  /** A completion without a further pair: the pair is released and nothing is submitted again. */
  function Retired(s: State, t: nat): State
    requires t < |s.tasks| && s.tasks[t].Running? && s.tasks[t].pair < |s.pairs|
  {
    Set(s, s.tasks[t].pair, Released, t, Finished, s.idx, s.completed + 1)
  }

  lemma RetiredGood(s: State, t: nat)
    requires Good(s) && t < |s.tasks| && s.tasks[t].Running? && s.idx == |s.pairs|
    ensures Good(Retired(s, t)) && HeldIn(Retired(s, t)) == HeldIn(s)
    ensures NeverIn(Retired(s, t)) == NeverIn(s) && FreedIn(Retired(s, t)) == FreedIn(s)
  {
    hide ReleasedIn, BusyIn, HeldIn, NotStartedIn, RunningIn, FinishedIn, FreedIn, NeverIn, AllocatedIn;
    SetCounts(s, s.tasks[t].pair, Released, t, Finished, s.idx, s.completed + 1);
  }

  /** A completion with a further pair q: released, and submitted again, or freed together with q when that fails. */
  function Recycled(s: State, t: nat, ok: bool): State
    requires t < |s.tasks| && s.tasks[t].Running? && s.tasks[t].pair < |s.pairs| && s.idx < |s.pairs|
  {
    var p, q := s.tasks[t].pair, s.idx;
    var s1 := Set(s, p, Released, t, Allocated(q), s.idx, s.completed + 1);
    if ok then Set(s1, q, Busy(t), t, Running(q), s.idx + 1, s.completed + 1)
    else Set(s1, q, Released, t, Freed, s.idx + 1, s.completed + 2)
  }

  lemma RecycledGood(s: State, t: nat, ok: bool)
    requires Good(s) && t < |s.tasks| && s.tasks[t].Running? && s.idx < |s.pairs|
    ensures Good(Recycled(s, t, ok)) && HeldIn(Recycled(s, t, ok)) == HeldIn(s) && NeverIn(Recycled(s, t, ok)) == NeverIn(s)
    ensures FreedIn(Recycled(s, t, ok)) == FreedIn(s) + (if ok then 0 else 1)
  {
    hide ReleasedIn, BusyIn, HeldIn, NotStartedIn, RunningIn, FinishedIn, FreedIn, NeverIn, AllocatedIn;
    var p, q := s.tasks[t].pair, s.idx;
    SetCounts(s, p, Released, t, Allocated(q), s.idx, s.completed + 1);
    var s1 := Set(s, p, Released, t, Allocated(q), s.idx, s.completed + 1);
    if ok { SetCounts(s1, q, Busy(t), t, Running(q), s.idx + 1, s.completed + 1); }
    else { SetCounts(s1, q, Released, t, Freed, s.idx + 1, s.completed + 2); }
  }

  // ---------- The object ----------

  /** The log holds every released pair, once. */
  ghost predicate Logged(log: seq<nat>, pairs: seq<Pair>) {
    Distinct(log) && forall p: nat :: p in log <==> p < |pairs| && pairs[p].Released?
  }

  lemma LogRelease(log: seq<nat>, pairs: seq<Pair>, p: nat)
    requires Logged(log, pairs) && p < |pairs| && !pairs[p].Released?
    ensures Logged(log + [p], pairs[p := Released])
  {
  }

  lemma LogOther(log: seq<nat>, pairs: seq<Pair>, p: nat, pair: Pair)
    requires Logged(log, pairs) && p < |pairs| && !pairs[p].Released? && !pair.Released?
    ensures Logged(log, pairs[p := pair])
  {
  }

  lemma TaskPair(s: State, t: nat)
    requires Good(s) && t < |s.tasks|
    ensures s.idx <= |s.pairs| && (s.idx < |s.pairs| ==> s.pairs[s.idx] == Unused)
    ensures s.tasks[t].Running? ==> s.tasks[t].pair < s.idx && s.pairs[s.tasks[t].pair] == Busy(t)
    ensures s.tasks[t].Allocated? ==> s.tasks[t].pair < s.idx && s.pairs[s.tasks[t].pair] == Held(t)
  {
  }

  lemma NextUnused(s: State)
    requires Good(s) && s.idx < |s.pairs|
    ensures s.pairs[s.idx] == Unused
  {
  }

  lemma {:induction false} CountPlus<T>(s: seq<T>, f: T -> bool, x: T)
    ensures Count(s + [x], f) == Count(s, f) + (if f(x) then 1 else 0)
  {
    if s == [] {
      assert s + [x] == [x];
    } else {
      assert (s + [x])[1..] == s[1..] + [x];
      CountPlus(s[1..], f, x);
    }
  }

  lemma AllocateGood(s: State)
    requires Good(s) && |s.tasks| == s.idx < |s.pairs|
    ensures Good(State(s.pairs[s.idx := Held(|s.tasks|)], s.tasks + [Allocated(s.idx)], s.idx + 1, s.completed))
  {
    CountUpdate(s.pairs, (p: Pair) => p.Released?, s.idx, Held(|s.tasks|));
    CountUpdate(s.pairs, (p: Pair) => p.Busy?, s.idx, Held(|s.tasks|));
    CountUpdate(s.pairs, (p: Pair) => p.Held?, s.idx, Held(|s.tasks|));
    CountUpdate(s.pairs, (p: Pair) => p.NotStarted?, s.idx, Held(|s.tasks|));
    CountPlus(s.tasks, (t: Task) => t.Running?, Allocated(s.idx));
    CountPlus(s.tasks, (t: Task) => t.Finished?, Allocated(s.idx));
    CountPlus(s.tasks, (t: Task) => t.NeverStarted?, Allocated(s.idx));
    CountPlus(s.tasks, (t: Task) => t.Allocated?, Allocated(s.idx));
  }

  /** Those that never start are the ones whose first submission failed. */
  lemma {:induction false} NeverAre(tasks: seq<Task>, oks: seq<bool>)
    requires |tasks| == |oks| && forall i :: 0 <= i < |tasks| ==> (tasks[i].NeverStarted? <==> !oks[i])
    ensures Count(tasks, (t: Task) => t.NeverStarted?) == Count(oks, ok => !ok)
  {
    if tasks != [] { NeverAre(tasks[1..], oks[1..]); }
  }

  lemma AllStarted(s: State, oks: seq<bool>)
    requires Good(s) && |s.tasks| == |oks|
    requires forall i :: 0 <= i < |oks| ==> if oks[i] then s.tasks[i].Running? else s.tasks[i].NeverStarted?
    ensures HeldIn(s) == 0 && FreedIn(s) == 0 && NeverIn(s) == Count(oks, ok => !ok)
  {
    CountNone(s.tasks, (t: Task) => t.Allocated?);
    CountNone(s.tasks, (t: Task) => t.Freed?);
    NeverAre(s.tasks, oks);
  }

  /** A completion that progress reports: of which task, and whether a submission made in its callback succeeds. */
  datatype Event = Event(task: nat, ok: bool)

  /** What one completion does; a report about a task that is not running does nothing. */
  function Stepped(s: State, e: Event): State {
    if e.task < |s.tasks| && s.tasks[e.task].Running? && s.tasks[e.task].pair < |s.pairs| then
      if s.idx < |s.pairs| then Recycled(s, e.task, e.ok) else Retired(s, e.task)
    else s
  }

  lemma SteppedIs(s: State, e: Event)
    requires Good(s)
    ensures e.task < |s.tasks| && s.tasks[e.task].Running? ==>
      s.tasks[e.task].pair < |s.pairs| && Stepped(s, e) == if s.idx < |s.pairs| then Recycled(s, e.task, e.ok) else Retired(s, e.task)
    ensures !(e.task < |s.tasks| && s.tasks[e.task].Running?) ==> Stepped(s, e) == s
  {
  }

  /** Completions are handled until as many as there are pairs have been counted. */
  function Polled(s: State, events: seq<Event>): State
    decreases |events|
  {
    if events == [] || s.completed >= |s.pairs| then s else Polled(Stepped(s, events[0]), events[1..])
  }

  // ---------- Whole runs ----------

  /** n pairs, the first k of them allocated to tasks. */
  function Allotted(n: nat, k: nat): State
    requires k <= n
  {
    State(seq(n, i requires 0 <= i => if i < k then Held(i) else Unused), seq(k, i requires 0 <= i => Allocated(i)), k, 0)
  }

  function FirstTask(oks: seq<bool>, i: nat): Task
    requires i < |oks|
  {
    if oks[i] then Running(i) else NeverStarted
  }

  function FirstPair(oks: seq<bool>, i: nat): Pair
    requires i < |oks|
  {
    if oks[i] then Busy(i) else NotStarted
  }

  /** The state after the first submissions, oks[i] saying whether that of task i succeeded. */
  function Started(n: nat, oks: seq<bool>): State
    requires |oks| <= n
  {
    State(seq(n, i requires 0 <= i => if i < |oks| then FirstPair(oks, i) else Unused),
          seq(|oks|, i requires 0 <= i < |oks| => FirstTask(oks, i)), |oks|, 0)
  }

  predicate IsRunning(s: State, t: nat) {
    t < |s.tasks| && s.tasks[t].Running?
  }

  /** As long as something is in flight and polling goes on, a completion is reported, and submissions made in
      callbacks succeed. */
  ghost predicate Attentive(s: State, events: seq<Event>)
    decreases |events|
  {
    s.completed < |s.pairs| && RunningIn(s) > 0 ==>
      events != [] && IsRunning(s, events[0].task) && events[0].ok && Attentive(Stepped(s, events[0]), events[1..])
  }

  /** What a completion keeps; it counts at least one more. */
  lemma SteppedKeeps(s: State, e: Event)
    requires Good(s)
    ensures var s' := Stepped(s, e);
      && Good(s') && |s'.pairs| == |s.pairs| && |s'.tasks| == |s.tasks|
      && HeldIn(s') == HeldIn(s) && NeverIn(s') == NeverIn(s) && (e.ok ==> FreedIn(s') == FreedIn(s))
      && (IsRunning(s, e.task) ==> s'.completed > s.completed)
  {
    hide Good, HeldIn, NeverIn, FreedIn;
    SteppedIs(s, e);
    if IsRunning(s, e.task) {
      TaskPair(s, e.task);
      if s.idx < |s.pairs| { RecycledGood(s, e.task, e.ok); } else { RetiredGood(s, e.task); }
    }
  }

  /** A task whose first submission failed keeps polling from ever ending, whatever completes. */
  lemma {:induction false} LostFirstNeverEnds(s: State, events: seq<Event>)
    requires Good(s) && NeverIn(s) > 0
    ensures Polled(s, events).completed < |s.pairs|
    decreases |events|
  {
    hide Good, NeverIn, Stepped;
    BelowAll(s);
    if events != [] {
      SteppedKeeps(s, events[0]);
      LostFirstNeverEnds(Stepped(s, events[0]), events[1..]);
    }
  }

  lemma BelowAll(s: State)
    requires Good(s)
    ensures s.completed <= |s.pairs| && (NeverIn(s) > 0 ==> s.completed < |s.pairs|)
  {
    Conservation(s);
  }

  /** If every completion is reported and later submissions succeed, polling ends exactly when all first
      submissions succeeded and there is a task at all, or nothing to do. */
  lemma {:induction false} PollEndsExactly(s: State, events: seq<Event>)
    requires Good(s) && HeldIn(s) == 0 && FreedIn(s) == 0 && Attentive(s, events)
    ensures Polled(s, events).completed == |s.pairs| <==> NeverIn(s) == 0 && (|s.tasks| > 0 || s.completed == |s.pairs|)
    decreases |events|
  {
    hide Good, HeldIn, NeverIn, FreedIn, RunningIn, Stepped;
    BelowAll(s);
    if s.completed < |s.pairs| && RunningIn(s) > 0 {
      SteppedKeeps(s, events[0]);
      PollEndsExactly(Stepped(s, events[0]), events[1..]);
    } else if s.completed < |s.pairs| {
      StalledExactly(s);
      Conservation(s);
      NothingRuns(s, events);
    }
  }

  /** With nothing in flight, reports change nothing. */
  lemma {:induction false} NothingRuns(s: State, events: seq<Event>)
    requires RunningIn(s) == 0
    ensures Polled(s, events) == s
    decreases |events|
  {
    if events != [] && s.completed < |s.pairs| {
      if IsRunning(s, events[0].task) { CountSome(s.tasks, (t: Task) => t.Running?, events[0].task); }
      NothingRuns(s, events[1..]);
    }
  }

  /** While something is in flight there is a completion to report. */
  lemma {:induction false} SomeRunning(tasks: seq<Task>) returns (t: nat)
    requires Count(tasks, (t: Task) => t.Running?) > 0
    ensures t < |tasks| && tasks[t].Running?
  {
    if tasks[0].Running? {
      t := 0;
    } else {
      t := SomeRunning(tasks[1..]);
      t := t + 1;
    }
  }

  /** Every state has such a course of events, with no more of them than pairs left. */
  lemma {:induction false} AttentiveExists(s: State) returns (events: seq<Event>)
    requires Good(s)
    ensures Attentive(s, events) && s.completed + |events| <= |s.pairs|
    decreases |s.pairs| - s.completed
  {
    hide Good, Stepped;
    BelowAll(s);
    events := [];
    if s.completed < |s.pairs| && RunningIn(s) > 0 {
      var t := SomeRunning(s.tasks);
      var e := Event(t, true);
      SteppedKeeps(s, e);
      events := AttentiveExists(Stepped(s, e));
      assert ([e] + events)[1..] == events;
      events := [e] + events;
    }
  }

  /** The thread of one set of resources: allocate, submit, poll. Out of bounds exactly when there are more tasks
      than pairs; never done when a first submission fails; and otherwise done once every completion is reported
      and later submissions succeed. */
  method CopyThread(numBufPairs: nat, oks: seq<bool>, events: seq<Event>) returns (inBounds: bool, done: bool)
    ensures inBounds <==> |oks| <= numBufPairs
    ensures done ==> inBounds && Polled(Started(numBufPairs, oks), events).completed == numBufPairs
    ensures inBounds && false in oks ==> !done
    ensures inBounds && Attentive(Started(numBufPairs, oks), events) ==> (done <==> false !in oks && (|oks| > 0 || numBufPairs == 0))
  {
    hide Good, HeldIn, NeverIn, FreedIn, RunningIn, Attentive, Polled, Logged;
    var resources := new Resources(numBufPairs);
    inBounds := resources.AllocateTasks(|oks|);
    if !inBounds {
      return false, false;
    }
    resources.SubmitTasks(oks);
    ghost var s := resources.Now();
    done := resources.Poll(events);
    FailedAmong(oks);
    if false in oks { LostFirstNeverEnds(s, events); }
    if Attentive(s, events) { PollEndsExactly(s, events); }
  }

  lemma {:induction false} FailedAmong(oks: seq<bool>)
    ensures Count(oks, ok => !ok) > 0 <==> false in oks
  {
    if oks != [] { FailedAmong(oks[1..]); }
  }

  class Resources {
    var pairs: seq<Pair>
    var tasks: seq<Task>
    var bufPairIdx: nat
    var numCompleted: nat
    /** The pairs whose buffers were released, in that order. */
    ghost var releases: seq<nat>

    ghost function Now(): State
      reads this
    {
      State(pairs, tasks, bufPairIdx, numCompleted)
    }

    ghost predicate Valid()
      reads this
    {
      Good(Now()) && Logged(releases, pairs) && |releases| == numCompleted
    }

    constructor (numBufPairs: nat)
      ensures Valid() && Now() == Allotted(numBufPairs, 0)
    {
      pairs := seq(numBufPairs, _ => Unused);
      tasks, bufPairIdx, numCompleted, releases := [], 0, 0, [];
      new;
      CountNone(pairs, (p: Pair) => p.Released?);
      CountNone(pairs, (p: Pair) => p.Busy?);
      CountNone(pairs, (p: Pair) => p.Held?);
      CountNone(pairs, (p: Pair) => p.NotStarted?);
    }

    /** allocate_dma_tasks; false where the source would read past its buffer arrays. */
    method AllocateTasks(numTasks: nat) returns (inBounds: bool)
      requires Valid() && Now() == Allotted(|pairs|, 0)
      modifies this
      ensures Valid() && |pairs| == old(|pairs|)
      ensures inBounds <==> numTasks <= |pairs|
      ensures inBounds ==> Now() == Allotted(|pairs|, numTasks)
    {
      hide Good;
      while |tasks| < numTasks
        invariant Valid() && |pairs| == old(|pairs|) && |tasks| <= numTasks && |tasks| <= |pairs|
        invariant Now() == Allotted(|pairs|, |tasks|)
        decreases numTasks - |tasks|
      {
        if bufPairIdx >= |pairs| { return false; }
        AllocateGood(Now());
        NextUnused(Now());
        LogOther(releases, pairs, bufPairIdx, Held(|tasks|));
        ghost var next := Allotted(|pairs|, |tasks| + 1);
        assert next.pairs == pairs[bufPairIdx := Held(|tasks|)] && next.tasks == tasks + [Allocated(bufPairIdx)];
        pairs := pairs[bufPairIdx := Held(|tasks|)];
        tasks := tasks + [Allocated(bufPairIdx)];
        bufPairIdx := bufPairIdx + 1;
      }
      return true;
    }

    /** submit_dma_tasks, which ignores whether a submission succeeded. */
    method SubmitTasks(oks: seq<bool>)
      requires Valid() && |oks| <= |pairs| && Now() == Allotted(|pairs|, |oks|)
      modifies this
      ensures Valid() && |pairs| == old(|pairs|) && Now() == Started(|pairs|, oks) && HeldIn(Now()) == 0
      ensures NeverIn(Now()) == Count(oks, ok => !ok) && FreedIn(Now()) == 0
    {
      hide Good;
      var t := 0;
      while t < |tasks|
        invariant 0 <= t <= |tasks| == |oks|
        invariant Valid() && |pairs| == old(|pairs|) && bufPairIdx == |oks| <= |pairs| && numCompleted == 0
        invariant forall i :: 0 <= i < |tasks| ==>
          if i < t then tasks[i] == FirstTask(oks, i) && pairs[i] == FirstPair(oks, i) else tasks[i] == Allocated(i) && pairs[i] == Held(i)
        invariant forall i :: |tasks| <= i < |pairs| ==> pairs[i] == Unused
      {
        TaskPair(Now(), t);
        SubmittedGood(Now(), t, oks[t]);
        ghost var next := Submitted(Now(), t, oks[t]);
        var p := tasks[t].pair;
        LogOther(releases, pairs, p, if oks[t] then Busy(t) else NotStarted);
        if oks[t] {
          pairs, tasks := pairs[p := Busy(t)], tasks[t := Running(p)];
        } else {
          pairs, tasks := pairs[p := NotStarted], tasks[t := NeverStarted];
        }
        assert Now() == next;
        t := t + 1;
      }
      AllStarted(Now(), oks);
    }

    /** The completion callback: count, release, and submit again with the next pair if there is one. */
    method OnCompleted(t: nat, ok: bool)
      requires Valid() && t < |tasks| && tasks[t].Running?
      modifies this
      ensures Valid() && |pairs| == old(|pairs|) && |tasks| == old(|tasks|)
      ensures Now() == if old(bufPairIdx) < |pairs| then Recycled(old(Now()), t, ok) else Retired(old(Now()), t)
      ensures releases[..|old(releases)| + 1] == old(releases) + [old(tasks[t].pair)]
      ensures numCompleted > old(numCompleted) && HeldIn(Now()) == old(HeldIn(Now())) && NeverIn(Now()) == old(NeverIn(Now()))
      ensures FreedIn(Now()) == old(FreedIn(Now())) + (if old(bufPairIdx) < |pairs| && !ok then 1 else 0)
    {
      hide Good;
      TaskPair(Now(), t);
      numCompleted := numCompleted + 1;
      var p := tasks[t].pair;
      LogRelease(releases, pairs, p);
      pairs := pairs[p := Released];
      releases := releases + [p];
      if bufPairIdx < |pairs| {
        RecycledGood(old(Now()), t, ok);
        var q := bufPairIdx;
        bufPairIdx := bufPairIdx + 1;
        if ok {
          LogOther(releases, pairs, q, Busy(t));
          pairs, tasks := pairs[q := Busy(t)], tasks[t := Running(q)];
        } else {
          LogRelease(releases, pairs, q);
          pairs, tasks := pairs[q := Released], tasks[t := Freed];
          releases := releases + [q];
          numCompleted := numCompleted + 1;
        }
        assert old(tasks)[t := Allocated(q)][t := tasks[t]] == tasks;
      } else {
        RetiredGood(old(Now()), t);
        tasks := tasks[t := Finished];
      }
    }

    /** poll_for_completion, over the completions that progress happens to report. */
    method Poll(events: seq<Event>) returns (done: bool)
      requires Valid() && HeldIn(Now()) == 0
      modifies this
      ensures Valid() && |pairs| == old(|pairs|) && HeldIn(Now()) == 0 && NeverIn(Now()) == old(NeverIn(Now()))
      ensures done <==> forall p :: 0 <= p < |pairs| ==> pairs[p].Released?
      ensures done <==> Polled(old(Now()), events).completed == old(|pairs|)
      ensures done ==> RunningIn(Now()) == 0 && |releases| == |pairs|
      ensures Now() == Polled(old(Now()), events)
    {
      hide Good, Stepped;
      var i := 0;
      DoneExactly(Now());
      while numCompleted < |pairs| && i < |events|
        invariant Valid() && |pairs| == old(|pairs|) && HeldIn(Now()) == 0 && NeverIn(Now()) == old(NeverIn(Now()))
        invariant i <= |events| && Polled(old(Now()), events) == Polled(Now(), events[i..])
        decreases |events| - i
      {
        var e := events[i];
        assert events[i..][0] == e && events[i..][1..] == events[i + 1..];
        i := i + 1;
        SteppedIs(Now(), e);
        if e.task < |tasks| && tasks[e.task].Running? {
          OnCompleted(e.task, e.ok);
        }
      }
      DoneExactly(Now());
      done := numCompleted >= |pairs|;
    }
  }
}
