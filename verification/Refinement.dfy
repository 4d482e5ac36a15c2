/** The loops of the runtime against the protocol: a whole `execute` is a list of its atomic steps,
    every execution ends, and ticks must not overlap. */
module Refinement {
  import opened Wrappers
  import opened Json
  import opened Automation
  import opened Store
  import opened Runs
  import opened Engine
  import opened Guarantees

  /** `n` steps of the same run. */
  function Steps(id: string, n: nat): seq<Happening> {
    seq(n, i => Step(id))
  }

  /** The state after `n` steps of the same run. */
  ghost function Stepped(w: World, st: State, id: string, n: nat): State
    decreases n
  {
    if n == 0 then st else Stepped(w, Apply(w, st, Step(id)), id, n - 1)
  }

  lemma {:induction false} AfterCons(w: World, st: State, h: Happening, hs: seq<Happening>)
    ensures After(w, st, [h] + hs) == After(w, Apply(w, st, h), hs)
    decreases hs
  {
    hide Apply;
    if hs == [] {
      assert [h] + hs == [h] && [h][..0] == [];
      assert After(w, st, []) == st;
    } else {
      var front, last := hs[..|hs| - 1], hs[|hs| - 1];
      assert ([h] + hs)[..|hs|] == [h] + front;
      AfterCons(w, st, h, front);
    }
  }

  lemma {:induction false} SteppedIsAfter(w: World, st: State, id: string, n: nat)
    ensures Stepped(w, st, id, n) == After(w, st, Steps(id, n))
    decreases n
  {
    hide Apply;
    if n == 0 {
      assert Steps(id, n) == [];
    } else {
      assert Steps(id, n) == [Step(id)] + Steps(id, n - 1);
      AfterCons(w, st, Step(id), Steps(id, n - 1));
      SteppedIsAfter(w, Apply(w, st, Step(id)), id, n - 1);
    }
  }

  ghost predicate InMemory(st: State, run: Run, phase: Phase) {
    run.id in st.mem && st.mem[run.id] == Mem(run, phase, true)
  }

  lemma OneStep(w: World, st: State, run: Run, phase: Phase)
    requires InMemory(st, run, phase)
    ensures Apply(w, st, Step(run.id)) == StepRun(w, st, run, phase)
  {
  }

  /** Some number of steps of run `id` from `st` leads to `goal`, and the run out of memory. */
  ghost predicate Leads(w: World, st: State, id: string, goal: Sys) {
    exists n: nat :: LeadsIn(w, st, id, goal, n)
  }

  ghost predicate LeadsIn(w: World, st: State, id: string, goal: Sys, n: nat) {
    var st' := Stepped(w, st, id, n);
    st'.sys == goal && id !in st'.mem && st'.queue == st.queue &&
    st'.ticking == if st.ticking == Some(id) then None else st.ticking
  }

  lemma LeadsHere(w: World, st: State, id: string)
    requires id !in st.mem && st.ticking != Some(id)
    ensures Leads(w, st, id, st.sys)
  {
    assert LeadsIn(w, st, id, st.sys, 0);
  }

  /** One step more in front. */
  lemma LeadsFrom(w: World, st: State, run: Run, phase: Phase, goal: Sys)
    requires InMemory(st, run, phase) && Leads(w, StepRun(w, st, run, phase), run.id, goal)
    ensures Leads(w, st, run.id, goal)
  {
    var st1 := StepRun(w, st, run, phase);
    OneStep(w, st, run, phase);
    StepRest(w, st, run, phase);
    var n: nat :| LeadsIn(w, st1, run.id, goal, n);
    assert Stepped(w, st, run.id, n + 1) == Stepped(w, st1, run.id, n);
    assert LeadsIn(w, st, run.id, goal, n + 1);
  }

  /** A raised error is logged, then saved. */
  lemma FailingSteps(w: World, st: State, run: Run, e: string)
    requires InMemory(st, run, Erred(e)) && run.step < |ActionsOf(st, run.unitId)|
    ensures Leads(w, st, run.id, Aborted(st.sys, run, ActionsOf(st, run.unitId)[run.step], e).0)
  {
    var st1 := StepRun(w, st, run, Erred(e));
    var failed := FailedRun(st.sys, run, e);
    LeadsHere(w, StepRun(w, st1, failed, NotedError), run.id);
    LeadsFrom(w, st1, failed, NotedError, Save(st1.sys, failed));
    LeadsFrom(w, st, run, Erred(e), Save(st1.sys, failed));
  }

  /** An answer is logged, then the next step saved; the run is back at the loop head. */
  lemma SucceedingSteps(w: World, st: State, run: Run, work: Work, v: Option<Json>) returns (st2: State, next: Run)
    requires InMemory(st, run, Answered(v)) && run.step < |ActionsOf(st, run.unitId)|
    requires ActionsOf(st, run.unitId)[run.step] == Do(work)
    ensures (st2.sys, next) == Advanced(st.sys, run, work, v)
    ensures InMemory(st2, next, Head) && ActionsOf(st2, next.unitId) == ActionsOf(st, run.unitId)
    ensures next.id == run.id && next.step == run.step + 1
    ensures forall goal: Sys :: Leads(w, st2, run.id, goal) ==> Leads(w, st, run.id, goal)
  {
    var noted := NotedRun(run, work, v);
    var st1 := StepRun(w, st, run, Answered(v));
    st2 := StepRun(w, st1, noted, Noted);
    next := noted.(step := run.step + 1);
    forall goal: Sys | Leads(w, st2, run.id, goal) ensures Leads(w, st, run.id, goal) {
      LeadsFrom(w, st1, noted, Noted, goal);
      LeadsFrom(w, st, run, Answered(v), goal);
    }
  }

  /** The head finishes the run, or stops at a wait. */
  lemma HeadStops(w: World, actions: seq<Action>, st: State, run: Run)
    requires InMemory(st, run, Head) && actions == ActionsOf(st, run.unitId)
    requires run.step >= |actions| || actions[run.step].Wait?
    ensures Leads(w, st, run.id, Loop(w, actions, st.sys, run).0)
  {
    var st1 := StepRun(w, st, run, Head);
    if run.step >= |actions| || ResumeTime(st.sys.clock, actions[run.step].duration).Some? {
      LeadsHere(w, st1, run.id);
    } else {
      FailingSteps(w, st1, run, INVALID_TIME);
    }
    LeadsFrom(w, st, run, Head, Loop(w, actions, st.sys, run).0);
  }

  /** The head performs an action that raises an error. */
  lemma HeadRaises(w: World, actions: seq<Action>, st: State, run: Run)
    requires InMemory(st, run, Head) && actions == ActionsOf(st, run.unitId)
    requires run.step < |actions| && actions[run.step].Do?
    requires Answer(w, actions[run.step].work, run.userId, run.context, Calls(TraceOf(st.sys, run.id))).Raised?
    ensures Leads(w, st, run.id, Loop(w, actions, st.sys, run).0)
  {
    var st1 := StepRun(w, st, run, Head);
    var e := Answer(w, actions[run.step].work, run.userId, run.context, Calls(TraceOf(st.sys, run.id))).error;
    StepRest(w, st, run, Head);
    FailingSteps(w, st1, run, e);
    LeadsFrom(w, st, run, Head, Loop(w, actions, st.sys, run).0);
  }

  /** The head performs an action that returns: three steps later the run is at the head again, at
      the next action. */
  lemma HeadReturns(w: World, actions: seq<Action>, st: State, run: Run) returns (st3: State, next: Run)
    requires InMemory(st, run, Head) && actions == ActionsOf(st, run.unitId)
    requires run.step < |actions| && actions[run.step].Do?
    requires Answer(w, actions[run.step].work, run.userId, run.context, Calls(TraceOf(st.sys, run.id))).Returned?
    ensures InMemory(st3, next, Head) && ActionsOf(st3, next.unitId) == actions
    ensures next.id == run.id && next.step == run.step + 1
    ensures Loop(w, actions, st.sys, run) == Loop(w, actions, st3.sys, next)
    ensures forall goal: Sys :: Leads(w, st3, run.id, goal) ==> Leads(w, st, run.id, goal)
  {
    var work := actions[run.step].work;
    var v := Answer(w, work, run.userId, run.context, Calls(TraceOf(st.sys, run.id))).value;
    var st1 := StepRun(w, st, run, Head);
    StepRest(w, st, run, Head);
    st3, next := SucceedingSteps(w, st1, run, work, v);
    forall goal: Sys | Leads(w, st3, run.id, goal) ensures Leads(w, st, run.id, goal) {
      LeadsFrom(w, st, run, Head, goal);
    }
  }

  /** From the loop head, steps lead to exactly the state in which the loop of `execute` ends. */
  lemma {:induction false} LoopIsSteps(w: World, actions: seq<Action>, st: State, run: Run)
    requires InMemory(st, run, Head) && actions == ActionsOf(st, run.unitId)
    ensures Leads(w, st, run.id, Loop(w, actions, st.sys, run).0)
    decreases |actions| - run.step
  {
    if run.step >= |actions| || actions[run.step].Wait? {
      HeadStops(w, actions, st, run);
    } else if Answer(w, actions[run.step].work, run.userId, run.context, Calls(TraceOf(st.sys, run.id))).Raised? {
      HeadRaises(w, actions, st, run);
    } else {
      var st3, next := HeadReturns(w, actions, st, run);
      LoopIsSteps(w, actions, st3, next);
    }
  }

  /** `st'` holds what executing `run` leaves, the run is out of memory, and a tick that was busy with
      it can go on. */
  ghost predicate ExecutedBy(w: World, st: State, run: Run, st': State) {
    st'.sys == Executed(w, st.sys, run).0 && run.id !in st'.mem && st'.queue == st.queue &&
    st'.ticking == if st.ticking == Some(run.id) then None else st.ticking
  }

  /** Refinement: what `execute` does to the stores, the clock and the outside world is what some
      number of uninterrupted protocol steps of that run does, after which the run is no longer in
      memory. */
  lemma ExecuteIsSteps(w: World, st: State, run: Run)
    requires InMemory(st, run, Fresh)
    ensures exists n: nat :: ExecutedBy(w, st, run, After(w, st, Steps(run.id, n)))
  {
    var st1 := StepRun(w, st, run, Fresh);
    if run.unitId !in st.sys.db.units {
      LeadsHere(w, st1, run.id);
    } else {
      LoopIsSteps(w, ActionsOf(st, run.unitId), st1, run.(status := Running));
    }
    LeadsFrom(w, st, run, Fresh, Executed(w, st.sys, run).0);
    var n: nat :| LeadsIn(w, st, run.id, Executed(w, st.sys, run).0, n);
    SteppedIsAfter(w, st, run.id, n);
  }

  /** The rows a tick has queued are executed one after another: some happenings lead to exactly what
      `resumeWaitingRuns` leaves, and the tick is over. */
  lemma {:induction false} QueueIsSteps(w: World, st: State) returns (hs: seq<Happening>)
    requires st.ticking.None?
    ensures var st' := After(w, st, hs); st'.sys == ResumeAll(w, st.sys, st.queue) && st'.queue == [] && st'.ticking.None?
    decreases |st.queue|
  {
    if st.queue == [] {
      hs := [];
    } else {
      var r := st.queue[0];
      var st1 := Apply(w, st, ResumeNext);
      assert InMemory(st1, Resumed(r), Fresh) && st1.sys == st.sys && st1.queue == st.queue[1..];
      hide Apply, Executed, InMemory;
      ExecuteIsSteps(w, st1, Resumed(r));
      var n: nat :| ExecutedBy(w, st1, Resumed(r), After(w, st1, Steps(r.id, n)));
      var st2 := After(w, st1, Steps(r.id, n));
      var rest := QueueIsSteps(w, st2);
      hs := [ResumeNext] + (Steps(r.id, n) + rest);
      AfterCons(w, st, ResumeNext, Steps(r.id, n) + rest);
      AfterAppend(w, st1, Steps(r.id, n), rest);
    }
  }

  /** Refinement of a whole tick: from every reachable state in which no tick is under way, and for
      every reading of the due rows there, what the scheduler does is what some happenings do. So the
      state a tick leaves is reachable, and every guarantee holds of it. */
  lemma TickIsSteps(w: World, units: map<string, Unit>, hs: seq<Happening>, due: seq<Run>) returns (tick: seq<Happening>)
    requires
      var st := Reach(w, units, hs);
      st.queue == [] && st.ticking.None? && IsDue(st.sys.db, st.sys.clock, due)
    ensures Reach(w, units, hs + tick).sys == ResumeAll(w, Reach(w, units, hs).sys, due)
    ensures Reach(w, units, hs + tick).queue == [] && Reach(w, units, hs + tick).ticking.None?
  {
    var st := Reach(w, units, hs);
    var st1 := Apply(w, st, Tick(due));
    assert st1 == st.(queue := due);
    hide Apply, After, IsDue, ResumeAll;
    var rest := QueueIsSteps(w, st1);
    tick := [Tick(due)] + rest;
    AfterCons(w, st, Tick(due), rest);
    AfterAppend(w, Initial(units), hs, tick);
  }

  // ---- Termination ------------------------------------------------------------------------------

  function PhaseRank(p: Phase): nat {
    match p
    case Fresh => 5
    case Head => 4
    case Answered(_) => 3
    case Erred(_) => 3
    case Noted => 2
    case NotedError => 2
  }

  /** How much a run still has to do: mainly, the number of its actions not yet passed. */
  function Rank(actions: seq<Action>, sl: Slice): int {
    if sl.mem.Some? && sl.mem.value.alive then 6 * (|actions| - sl.mem.value.run.step) + PhaseRank(sl.mem.value.phase)
    else if sl.p.row.Some? && sl.p.row.value.run.status == Waiting then 6 * (|actions| - sl.p.row.value.run.step) + 1
    else 0
  }

  /** Termination: each step of a run and each resumption brings its rank down, and the rank is
      never negative, so a run takes a bounded number of steps however long it waits. */
  lemma StepsComeDown(w: World, units: map<string, Unit>, hs: seq<Happening>, id: string)
    requires
      var st := Reach(w, units, hs);
      id in st.born && st.born[id].unitId in units && id in st.mem && st.mem[id].alive
    ensures
      var st := Reach(w, units, hs);
      var actions := units[st.born[id].unitId].actions;
      0 <= Rank(actions, SliceOf(Apply(w, st, Step(id)), id)) < Rank(actions, SliceOf(st, id))
  {
    var st := Reach(w, units, hs);
    AlwaysOk(w, units, hs);
    MemRunId(w, st, id);
    Known(w, units, hs, id);
    var m, sl := st.mem[id], SliceOf(st, id);
    OneStep(w, st, m.run, m.phase);
    StepSlices(w, st, m.run, m.phase, id);
    SliceComesDown(w, units, st.sys.clock, st.crashes, id, sl);
  }

  lemma SliceComesDown(w: World, units: map<string, Unit>, clock: nat, crashes: nat, id: string, sl: Slice)
    requires RunOk(w, units, clock, crashes, id, sl) && sl.mem.Some? && sl.mem.value.alive
    requires sl.origin.Some? && sl.origin.value.unitId in units
    ensures
      var actions := units[sl.origin.value.unitId].actions;
      0 <= Rank(actions, StepSlice(w, units, clock, sl, sl.mem.value.run, sl.mem.value.phase)) < Rank(actions, sl)
  {
    hide IdealAt, Asked, ReplyAt, Answer, Request, Counted, OnTime, AskedPart, LoggedPart;
  }

  lemma ResumptionsComeDown(w: World, units: map<string, Unit>, hs: seq<Happening>)
    requires
      var st := Reach(w, units, hs);
      st.queue != [] && st.ticking.None?
    ensures
      var st := Reach(w, units, hs);
      var id := st.queue[0].id;
      id in st.sys.db.runs && st.sys.db.runs[id].run.unitId in units &&
      var actions := units[st.sys.db.runs[id].run.unitId].actions;
      0 <= Rank(actions, SliceOf(Apply(w, st, ResumeNext), id)) < Rank(actions, SliceOf(st, id))
  {
    var st := Reach(w, units, hs);
    AlwaysOk(w, units, hs);
    Known(w, units, hs, st.queue[0].id);
  }

  // ---- Overlapping ticks ------------------------------------------------------------------------

  /** Executing any run only ever adds calls, to any run's list, and leaves the units alone. */
  ghost predicate Grows(s: Sys, s': Sys) {
    s'.db.units == s.db.units && forall id :: TraceOf(s, id) <= TraceOf(s', id)
  }

  lemma GrowsOn(a: Sys, b: Sys, c: Sys)
    requires Grows(a, b) && Grows(b, c)
    ensures Grows(a, c)
  {
    forall id ensures TraceOf(a, id) <= TraceOf(c, id) {
      assert TraceOf(a, id) <= TraceOf(b, id) <= TraceOf(c, id);
    }
  }

  lemma SavingGrows(s: Sys, s': Sys)
    requires s'.db.units == s.db.units && s'.trace == s.trace
    ensures Grows(s, s')
  {
  }

  lemma InvokingGrows(w: World, s: Sys, run: Run, work: Work)
    ensures Grows(s, Invoked(w, s, run, work))
  {
  }

  lemma {:induction false} LoopGrows(w: World, actions: seq<Action>, s: Sys, run: Run)
    ensures Grows(s, Loop(w, actions, s, run).0)
    decreases |actions| - run.step
  {
    hide Grows, Answer, Request;
    var end := Loop(w, actions, s, run).0;
    if run.step >= |actions| || actions[run.step].Wait? {
      SavingGrows(s, end);
    } else {
      var work := actions[run.step].work;
      var s1 := Invoked(w, s, run, work);
      InvokingGrows(w, s, run, work);
      match Answer(w, work, run.userId, run.context, Calls(TraceOf(s, run.id)))
      case Raised(e, _) =>
        SavingGrows(s1, end);
        GrowsOn(s, s1, end);
      case Returned(v, _) =>
        var (s2, next) := Advanced(s1, run, work, v);
        SavingGrows(s1, s2);
        GrowsOn(s, s1, s2);
        LoopGrows(w, actions, s2, next);
        GrowsOn(s, s2, end);
    }
  }

  lemma ExecutedGrows(w: World, s: Sys, run: Run)
    ensures Grows(s, Executed(w, s, run).0)
  {
    hide Loop;
    if run.unitId !in s.db.units {
      SavingGrows(s, Executed(w, s, run).0);
    } else {
      var started := run.(status := Running);
      SavingGrows(s, Save(s, started));
      LoopGrows(w, s.db.units[run.unitId].actions, Save(s, started), started);
      GrowsOn(s, Save(s, started), Executed(w, s, run).0);
    }
  }

  lemma {:induction false} TickGrows(w: World, s: Sys, rs: seq<Run>)
    ensures Grows(s, ResumeAll(w, s, rs))
    decreases rs
  {
    hide Executed, Grows;
    if rs == [] {
      SavingGrows(s, s);
    } else {
      var s1 := Executed(w, s, Resumed(rs[0])).0;
      ExecutedGrows(w, s, Resumed(rs[0]));
      TickGrows(w, s1, rs[1..]);
      GrowsOn(s, s1, ResumeAll(w, s1, rs[1..]));
    }
  }

  /** The first action from `k` on that sends a request, if no wait and not the end comes before it. */
  function NextCaller(actions: seq<Action>, k: nat): (n: Option<nat>)
    ensures n.Some? ==> k <= n.value < |actions| && CallsOut(actions[n.value])
    decreases |actions| - k
  {
    if k >= |actions| || actions[k].Wait? then None
    else if CallsOut(actions[k]) then Some(k)
    else NextCaller(actions, k + 1)
  }

  /** The call that resuming `run` makes first, if any: it can be read off the run and its list. */
  function NextCall(w: World, s: Sys, run: Run): Option<Invocation> {
    if run.unitId !in s.db.units then None
    else
      var actions := s.db.units[run.unitId].actions;
      match NextCaller(actions, run.step + 1)
      case None => None
      case Some(n) => Some(Invocation(n, Request(w, actions[n].work, run.userId, run.context).value))
  }

  /** From the loop head, the first call is that of the next calling action; without one, nothing is
      called. */
  lemma {:induction false} LoopCallsExactly(w: World, actions: seq<Action>, s: Sys, run: Run)
    ensures
      var s' := Loop(w, actions, s, run).0;
      match NextCaller(actions, run.step)
      case None => s'.trace == s.trace
      case Some(n) =>
        TraceOf(s, run.id) + [Invocation(n, Request(w, actions[n].work, run.userId, run.context).value)] <= TraceOf(s', run.id)
    decreases |actions| - run.step
  {
    hide Saved, Logged;
    if run.step >= |actions| || actions[run.step].Wait? {
    } else if CallsOut(actions[run.step]) {
      FirstCall(w, actions, s, run);
    } else {
      var work := actions[run.step].work;
      assert Invoked(w, s, run, work) == s;
      var (s2, next) := Advanced(s, run, work, None);
      LoopCallsExactly(w, actions, s2, next);
    }
  }

  lemma FirstCall(w: World, actions: seq<Action>, s: Sys, run: Run)
    requires run.step < |actions| && CallsOut(actions[run.step])
    ensures
      var call := Invocation(run.step, Request(w, actions[run.step].work, run.userId, run.context).value);
      TraceOf(s, run.id) + [call] <= TraceOf(Loop(w, actions, s, run).0, run.id)
  {
    var work := actions[run.step].work;
    var s1 := Invoked(w, s, run, work);
    hide Saved, Logged, Request, Answer;
    match Answer(w, work, run.userId, run.context, Calls(TraceOf(s, run.id)))
    case Raised(_, _) =>
    case Returned(v, _) =>
      var (s2, next) := Advanced(s1, run, work, v);
      LoopGrows(w, actions, s2, next);
  }

  /** Resuming a parked run sends the request of its next calling action right after all calls made
      before, whatever the replies; if it has none, nothing is called at all. */
  lemma ResumingCallsExactly(w: World, s: Sys, run: Run)
    ensures
      var s' := Executed(w, s, Resumed(run)).0;
      match NextCall(w, s, run)
      case None => s'.trace == s.trace
      case Some(call) => TraceOf(s, run.id) + [call] <= TraceOf(s', run.id)
  {
    hide Loop, Request, NextCaller;
    if run.unitId in s.db.units {
      var started := Resumed(run);
      LoopCallsExactly(w, s.db.units[run.unitId].actions, Save(s, started), started);
    }
  }

  /** Executing a run adds no call to another run's list. */
  lemma {:induction false} LoopLeavesOthers(w: World, actions: seq<Action>, s: Sys, run: Run, other: string)
    requires other != run.id
    ensures TraceOf(Loop(w, actions, s, run).0, other) == TraceOf(s, other)
    decreases |actions| - run.step
  {
    hide Saved, Logged, Request, Answer;
    if run.step >= |actions| || actions[run.step].Wait? {
    } else {
      var work := actions[run.step].work;
      var s1 := Invoked(w, s, run, work);
      match Answer(w, work, run.userId, run.context, Calls(TraceOf(s, run.id)))
      case Raised(_, _) =>
      case Returned(v, _) =>
        var (s2, next) := Advanced(s1, run, work, v);
        LoopLeavesOthers(w, actions, s2, next, other);
    }
  }

  lemma ExecutedLeavesOthers(w: World, s: Sys, run: Run, other: string)
    requires other != run.id
    ensures TraceOf(Executed(w, s, run).0, other) == TraceOf(s, other)
  {
    hide Loop;
    if run.unitId in s.db.units {
      var started := run.(status := Running);
      LoopLeavesOthers(w, s.db.units[run.unitId].actions, Save(s, started), started, other);
    }
  }

  /** A tick that read `run` makes its next call, after all calls made before. */
  lemma {:induction false} TickCalls(w: World, s: Sys, rs: seq<Run>, i: nat)
    requires i < |rs| && NextCall(w, s, rs[i]).Some?
    ensures MadeAfter(TraceOf(s, rs[i].id), NextCall(w, s, rs[i]).value, TraceOf(ResumeAll(w, s, rs), rs[i].id))
    decreases rs
  {
    hide Executed;
    var run, s1 := rs[i], Executed(w, s, Resumed(rs[0])).0;
    ExecutedGrows(w, s, Resumed(rs[0]));
    var end := TraceOf(ResumeAll(w, s, rs), run.id);
    if i == 0 {
      ResumingCallsExactly(w, s, run);
      TickGrows(w, s1, rs[1..]);
      assert end[|TraceOf(s, run.id)|] == NextCall(w, s, run).value;
    } else {
      TickCalls(w, s1, rs[1..], i - 1);
    }
  }

  /** No other version of the row is in the list. */
  ghost predicate OnlyAs(run: Run, rs: seq<Run>) {
    forall r <- rs :: r.id == run.id ==> r == run
  }

  /** A tick that reads no other version of a row without a next call makes no call for it. */
  lemma {:induction false} TickCallsNothing(w: World, s: Sys, rs: seq<Run>, run: Run)
    requires NextCall(w, s, run).None? && OnlyAs(run, rs)
    ensures TraceOf(ResumeAll(w, s, rs), run.id) == TraceOf(s, run.id)
    decreases rs
  {
    hide Executed;
    if rs == [] {
    } else {
      var s1 := Executed(w, s, Resumed(rs[0])).0;
      ExecutedGrows(w, s, Resumed(rs[0]));
      assert rs[0] in rs;
      if rs[0].id == run.id {
        ResumingCallsExactly(w, s, run);
      } else {
        ExecutedLeavesOthers(w, s, Resumed(rs[0]), run.id);
      }
      TickCallsNothing(w, s1, rs[1..], run);
    }
  }

  /** `call` is in `after` past the end of `before`. */
  ghost predicate MadeAfter(before: seq<Invocation>, call: Invocation, after: seq<Invocation>) {
    exists k :: |before| <= k < |after| && after[k] == call
  }

  /** `call` was made twice since there were only the calls `before`. */
  ghost predicate MadeTwice(before: seq<Invocation>, call: Invocation, after: seq<Invocation>) {
    exists i, j :: |before| <= i < j < |after| && after[i] == call == after[j]
  }

  /** Why ticks must not overlap. Take any state, and two ticks that execute one after the other, both
      having read a row before either executed it, together with whatever else was due. If the row
      has a next call, that request is sent twice, whatever the replies; if it has none, neither tick
      calls anything for it (unless it also read another version of the row). */
  lemma OverlappingTicksPerformTwice(w: World, s: Sys, first: seq<Run>, second: seq<Run>, run: Run)
    requires run in first && run in second
    ensures
      var before, after := TraceOf(s, run.id), TraceOf(ResumeAll(w, ResumeAll(w, s, first), second), run.id);
      match NextCall(w, s, run)
      case Some(call) => MadeTwice(before, call, after)
      case None => OnlyAs(run, first) && OnlyAs(run, second) ==> after == before
  {
    hide ResumeAll, NextCaller, Request;
    var s1 := ResumeAll(w, s, first);
    TickGrows(w, s, first);
    if NextCall(w, s, run).Some? {
      var call := NextCall(w, s, run).value;
      var i :| 0 <= i < |first| && first[i] == run;
      var j :| 0 <= j < |second| && second[j] == run;
      TickCalls(w, s, first, i);
      TickCalls(w, s1, second, j);
      TickGrows(w, s1, second);
      var t1, t2 := TraceOf(s1, run.id), TraceOf(ResumeAll(w, s1, second), run.id);
      var k :| |TraceOf(s, run.id)| <= k < |t1| && t1[k] == call;
      var l :| |t1| <= l < |t2| && t2[l] == call;
      assert t2[k] == t1[k];
    } else if OnlyAs(run, first) && OnlyAs(run, second) {
      TickCallsNothing(w, s, first, run);
      TickCallsNothing(w, s1, second, run);
    }
  }

  /** Such a state can be reached: a run of a wait of five minutes and a tool, parked and then due. */
  lemma OverlapExample(w: World, units: map<string, Unit>, unitId: string, tool: string)
    requires unitId in units && units[unitId].actions == [Wait("5m"), Do(Tool(tool, Null, None))]
    ensures
      var st := Reach(w, units, [Arrive("r", unitId, "e", "u", Null), Step("r"), Step("r"), Pass(5 * MINUTE)]);
      "r" in st.sys.db.runs &&
      var run := st.sys.db.runs["r"].run;
      IsDue(st.sys.db, st.sys.clock, [run]) && TraceOf(st.sys, "r") == [] && run.id == "r" &&
      MadeTwice([], Invocation(1, ToolCall(tool, Null, "u")), TraceOf(ResumeAll(w, ResumeAll(w, st.sys, [run]), [run]), "r"))
  {
    hide After, ResumeAll, IsDue, MadeTwice, Request, NextCaller;
    var h0, step, pass := Arrive("r", unitId, "e", "u", Null), Step("r"), Pass(5 * MINUTE);
    var parked := Parks(w, units, unitId);
    var st := Apply(w, parked, pass);
    assert [h0, step, step, pass] == [h0, step, step] + [pass];
    AfterOne(w, Initial(units), [h0, step, step], pass);
    var run := parked.sys.db.runs["r"].run;
    OnlyDue(st.sys.db, st.sys.clock, run);
    NextIsTool(w, st.sys, run, tool);
    OverlappingTicksPerformTwice(w, st.sys, [run], [run], run);
  }

  lemma OnlyDue(db: Db, now: nat, run: Run)
    requires run.id in db.runs && db.runs[run.id].run == run && db.waiting.Keys == {run.id} && db.waiting[run.id] <= now
    ensures IsDue(db, now, [run])
  {
    assert [run][0].id == run.id;
  }

  lemma NextIsTool(w: World, s: Sys, run: Run, tool: string)
    requires run.unitId in s.db.units && run.step == 0
    requires s.db.units[run.unitId].actions == [Wait("5m"), Do(Tool(tool, Null, None))]
    ensures NextCall(w, s, run) == Some(Invocation(1, ToolCall(tool, Null, run.userId)))
  {
  }

  /** The run stands at its wait, and nothing else is there. */
  lemma Parks(w: World, units: map<string, Unit>, unitId: string) returns (st: State)
    requires unitId in units && units[unitId].actions != [] && units[unitId].actions[0] == Wait("5m")
    ensures st == Reach(w, units, [Arrive("r", unitId, "e", "u", Null), Step("r"), Step("r")])
    ensures st.sys.db.units == units && st.sys.clock == 0 && TraceOf(st.sys, "r") == []
    ensures st.sys.db.waiting == map["r" := 5 * MINUTE] && "r" in st.sys.db.runs
    ensures
      var run := st.sys.db.runs["r"].run;
      run.id == "r" && run.unitId == unitId && run.userId == "u" && run.step == 0 && run.status == Waiting
  {
    var s1, r0 := FirstArrival(w, units, unitId);
    FiveMinutes();
    var h0, step := Arrive("r", unitId, "e", "u", Null), Step("r");
    AfterTwo(w, Initial(units), [h0], step, step);
    assert [h0] + [step, step] == [h0, step, step];
    var r := r0.(status := Running);
    var s2 := StepRun(w, s1, r0, Fresh);
    assert s2 == Apply(w, s1, step);
    st := StepRun(w, s2, r, Head);
  }

  lemma FiveMinutes()
    ensures ResumeTime(0, "5m") == Some(5 * MINUTE)
  {
    assert DecimalValue("5") == 5 by { assert "5"[..0] == ""; }
    assert "5m"[..1] == "5";
  }
}
