/** The automation engine as a protocol: any number of runs in flight, each taking one atomic step
    at a time in any interleaving, scheduler ticks that do not overlap, the passage of time, reruns,
    and process crashes that lose everything held in memory. */
module Engine {
  import opened Wrappers
  import opened Json
  import opened Automation
  import opened Store
  import opened Runs

  /** What a run was started for. */
  datatype Origin = Origin(unitId: string, userId: string, payload: Json, rerun: bool)

  /** Where an execution stands between two of its effects on the outside world:
      not begun; at the loop head; the action answered; the success logged; the action raised an
      error; the failure logged. */
  datatype Phase = Fresh | Head | Answered(value: Option<Json>) | Noted | Erred(error: string) | NotedError

  /** A run object in memory; after a crash it only says how far the lost execution had come. */
  datatype Mem = Mem(run: Run, phase: Phase, alive: bool)

  /** `born`, `begun`, `resumed` and `crashes` are history: they never influence a step. */
  datatype State = State(sys: Sys, mem: map<string, Mem>, queue: seq<Run>, ticking: Option<string>,
                         born: map<string, Origin>, begun: map<string, nat>, resumed: map<string, nat>, crashes: nat)

  /** `Arrive` is a matched event whose run is handed to execution; `Undispatched` is one whose run is
      saved and then not handed over, because the match is interrupted by a later unit. */
  datatype Happening =
    | Arrive(id: string, unitId: string, eventId: string, userId: string, payload: Json)
    | Undispatched(id: string, unitId: string, eventId: string, userId: string, payload: Json)
    | Rerun(source: string, id: string)
    | Step(id: string)
    | Tick(due: seq<Run>)
    | ResumeNext
    | Pass(ms: nat)
    | Crash

  function Initial(units: map<string, Unit>): State {
    State(Sys(Db(units, map[], map[], map[]), 0, map[]), map[], [], None, map[], map[], map[], 0)
  }

  function ActionsOf(st: State, unitId: string): seq<Action> {
    if unitId in st.sys.db.units then st.sys.db.units[unitId].actions else []
  }

  function At(st: State, sys: Sys, run: Run, phase: Phase): State {
    st.(sys := sys, mem := st.mem[run.id := Mem(run, phase, true)])
  }

  /** The execution of `id` is over or parked. */
  function Left(st: State, sys: Sys, id: string): State {
    st.(sys := sys, mem := st.mem - {id}, ticking := if st.ticking == Some(id) then None else st.ticking)
  }

  /** The next atomic step of the execution of `run`. */
  function StepRun(w: World, st: State, run: Run, phase: Phase): State {
    var s, actions := st.sys, ActionsOf(st, run.unitId);
    match phase
    case Fresh =>
      if run.unitId !in s.db.units then Left(st, Save(s, NotFound(run)), run.id)
      else
        var started := run.(status := Running);
        var st1 := At(st, Save(s, started), started, Head);
        st1.(begun := if run.id in st.begun then st.begun else st.begun[run.id := s.clock])
    case Head =>
      if run.step >= |actions| then Left(st, Save(s, FinishedRun(s, run)), run.id)
      else
        (match actions[run.step]
         case Wait(d) =>
           var t := ResumeTime(s.clock, d);
           if t.Some? then Left(st, Save(s, ParkedRun(run, t.value)), run.id)
           else At(st, s, run, Erred(INVALID_TIME))
         case Do(work) =>
           var s1 := Invoked(w, s, run, work);
           match Answer(w, work, run.userId, run.context, Calls(TraceOf(s, run.id)))
           case Raised(e, _) => At(st, s1, run, Erred(e))
           case Returned(v, _) => At(st, s1, run, Answered(v)))
    case Answered(v) =>
      if run.step < |actions| && actions[run.step].Do? then
        var work := actions[run.step].work;
        At(st, NotedSuccess(s, run, work, v), NotedRun(run, work, v), Noted)
      else st
    case Noted =>
      var next := run.(step := run.step + 1);
      At(st, Save(s, next), next, Head)
    case Erred(e) =>
      if run.step < |actions| then At(st, NotedFailure(s, run, actions[run.step], e), FailedRun(s, run, e), NotedError)
      else st
    case NotedError => Left(st, Save(s, run), run.id)
  }

  /** A new run is saved. */
  function Recorded(st: State, run: Run, payload: Json): State {
    st.(sys := st.sys.(db := Saved(st.sys.db, run, Some(payload))),
        born := st.born[run.id := Origin(run.unitId, run.userId, payload, false)])
  }

  function NewRun(st: State, id: string, unitId: string, eventId: string, userId: string, payload: Json): Run {
    Run(id, unitId, eventId, userId, Pending, 0, map["payload" := payload], st.sys.clock, None, None, None)
  }

  ghost function Apply(w: World, st: State, h: Happening): State {
    match h
    case Arrive(id, unitId, eventId, userId, payload) =>
      if id in st.born then st
      else
        var run := NewRun(st, id, unitId, eventId, userId, payload);
        var st1 := Recorded(st, run, payload);
        At(st1, st1.sys, run, Fresh)
    case Undispatched(id, unitId, eventId, userId, payload) =>
      if id in st.born then st else Recorded(st, NewRun(st, id, unitId, eventId, userId, payload), payload)
    case Rerun(source, id) =>
      if id in st.born || source !in st.sys.db.runs then st
      else
        var row := st.sys.db.runs[source];
        var run := RerunOf(st.sys, row, id);
        if run.None? then st
        else At(st, st.sys, run.value, Fresh).(born := st.born[id := Origin(row.run.unitId, row.run.userId, row.payload.value, true)])
    case Step(id) =>
      if id in st.mem && st.mem[id].alive && st.mem[id].run.id == id then StepRun(w, st, st.mem[id].run, st.mem[id].phase) else st
    case Tick(due) =>
      if st.queue == [] && st.ticking.None? && IsDue(st.sys.db, st.sys.clock, due) then st.(queue := due) else st
    case ResumeNext =>
      if st.queue != [] && st.ticking.None? then
        var r := st.queue[0];
        var n := if r.id in st.resumed then st.resumed[r.id] else 0;
        At(st, st.sys, Resumed(r), Fresh).(queue := st.queue[1..], ticking := Some(r.id), resumed := st.resumed[r.id := n + 1])
      else st
    case Pass(ms) => st.(sys := st.sys.(clock := st.sys.clock + ms))
    case Crash =>
      st.(mem := map id | id in st.mem :: st.mem[id].(alive := false), queue := [], ticking := None, crashes := st.crashes + 1)
  }

  /** The state after a list of happenings. */
  ghost function After(w: World, st: State, hs: seq<Happening>): State
    decreases hs
  {
    if hs == [] then st else Apply(w, After(w, st, hs[..|hs| - 1]), hs[|hs| - 1])
  }

  // ---- What a run should look like ----------------------------------------------------------

  /** The context, calls and step log of a run that has reached step `k`, computed from its origin
      alone; `ok` is false if it cannot get there because an action before `k` raises an error. */
  datatype Ideal = Ideal(ok: bool, ctx: Fields, trace: seq<Invocation>, log: StepLog)

  function ReplyAt(w: World, actions: seq<Action>, o: Origin, k: nat): Reply
    requires k < |actions| && actions[k].Do?
    decreases k, 1
  {
    var i := IdealAt(w, actions, o, k);
    Answer(w, actions[k].work, o.userId, i.ctx, Calls(i.trace))
  }

  /** The calls made once the action at `k` has sent its request. */
  function Asked(w: World, actions: seq<Action>, o: Origin, k: nat): seq<Invocation>
    requires k < |actions|
    decreases k, 1
  {
    var i := IdealAt(w, actions, o, k);
    if actions[k].Wait? then i.trace
    else
      var call := Request(w, actions[k].work, o.userId, i.ctx);
      if call.Some? then i.trace + [Invocation(k, call.value)] else i.trace
  }

  function IdealAt(w: World, actions: seq<Action>, o: Origin, k: nat): Ideal
    requires k <= |actions|
    decreases k, 0
  {
    if k == 0 then Ideal(true, map["payload" := o.payload], [], map[])
    else
      var i := IdealAt(w, actions, o, k - 1);
      if !i.ok || actions[k - 1].Wait? then i
      else
        match ReplyAt(w, actions, o, k - 1)
        case Raised(_, _) => i.(ok := false)
        case Returned(v, _) =>
          Ideal(true, Stored(actions[k - 1].work, i.ctx, v), Asked(w, actions, o, k - 1),
                i.log[k - 1 := StepRow(actions[k - 1], StepSuccess, IfTruthy(v), None)])
  }

  /** Total waiting time asked for below step `k`, and the number of waits there. */
  function WaitSum(actions: seq<Action>, k: nat): nat
    requires k <= |actions|
  {
    if k == 0 then 0 else WaitSum(actions, k - 1) + (if actions[k - 1].Wait? then ParseDuration(actions[k - 1].duration) else 0)
  }

  function WaitCount(actions: seq<Action>, k: nat): nat
    requires k <= |actions|
  {
    if k == 0 then 0 else WaitCount(actions, k - 1) + (if actions[k - 1].Wait? then 1 else 0)
  }

  // ---- The invariant of one run -------------------------------------------------------------

  /** What the stores and the outside world hold about one run. */
  datatype Part = Part(row: Option<Row>, score: Option<nat>, log: StepLog, trace: seq<Invocation>)

  /** Everything the state holds about one run. */
  datatype Slice = Slice(p: Part, mem: Option<Mem>, origin: Option<Origin>, begun: Option<nat>, resumed: nat)

  function Get<K, V>(m: map<K, V>, k: K): Option<V> {
    if k in m then Some(m[k]) else None
  }

  function PartOf(s: Sys, id: string): Part {
    Part(Get(s.db.runs, id), Get(s.db.waiting, id), StepsOf(s.db, id), TraceOf(s, id))
  }

  function SliceOf(st: State, id: string): Slice {
    Slice(PartOf(st.sys, id), Get(st.mem, id), Get(st.born, id), Get(st.begun, id),
          if id in st.resumed then st.resumed[id] else 0)
  }

  function KeptPayload(o: Origin): Option<Json> {
    if o.rerun then None else IfTruthy(Some(o.payload))
  }

  /** The error with which the action at `k` ends a run that reaches it. */
  ghost predicate RaisesAt(w: World, actions: seq<Action>, o: Origin, k: nat, e: string)
    requires k < |actions|
  {
    match actions[k]
    case Wait(_) => e == INVALID_TIME
    case Do(_) => ReplyAt(w, actions, o, k).Raised? && ReplyAt(w, actions, o, k).error == e
  }

  function FailureRow(action: Action, e: string): StepRow {
    StepRow(action, StepFailed, None, NonEmpty(Some(e)))
  }

  ghost predicate FailedAt(w: World, actions: seq<Action>, o: Origin, k: nat, sl: Slice, e: string)
    requires k < |actions|
  {
    RaisesAt(w, actions, o, k, e) && sl.p.trace == Asked(w, actions, o, k) &&
    sl.p.log == IdealAt(w, actions, o, k).log[k := FailureRow(actions[k], e)]
  }

  /** Nothing of step `k` has happened yet. */
  ghost predicate Clean(w: World, actions: seq<Action>, o: Origin, k: nat, sl: Slice)
    requires k <= |actions|
  {
    sl.p.trace == IdealAt(w, actions, o, k).trace && sl.p.log == IdealAt(w, actions, o, k).log
  }

  /** A persisted run that no execution is working on. */
  ghost predicate Resting(w: World, actions: seq<Action>, o: Origin, run: Run, sl: Slice)
    requires run.step <= |actions|
  {
    match run.status
    case Pending => run.step == 0 && Clean(w, actions, o, 0, sl)
    case Waiting => run.step < |actions| && actions[run.step].Wait? && Clean(w, actions, o, run.step, sl)
    case Success => run.step == |actions| && Clean(w, actions, o, run.step, sl)
    case Failed => run.step < |actions| && exists e :: FailedAt(w, actions, o, run.step, sl, e) && run.error == NonEmpty(Some(e))
    case Running => false
  }

  /** A persisted run that an execution is, or was when the process crashed, working on. */
  ghost predicate InFlight(w: World, actions: seq<Action>, o: Origin, run: Run, m: Mem, sl: Slice)
    requires run.step <= |actions|
  {
    var k := run.step;
    match m.phase
    case Fresh =>
      Resting(w, actions, o, run, sl) &&
      ((run.status == Pending && m.run == run) || (run.status == Waiting && m.run == Resumed(run)))
    case Head => run.status == Running && m.run == run && Clean(w, actions, o, k, sl)
    case Answered(v) =>
      run.status == Running && m.run == run && k < |actions| && actions[k].Do? &&
      ReplyAt(w, actions, o, k).Returned? && ReplyAt(w, actions, o, k).value == v &&
      sl.p.trace == Asked(w, actions, o, k) && sl.p.log == IdealAt(w, actions, o, k).log
    case Noted =>
      run.status == Running && k < |actions| && actions[k].Do? && IdealAt(w, actions, o, k + 1).ok &&
      m.run == run.(context := IdealAt(w, actions, o, k + 1).ctx) && Clean(w, actions, o, k + 1, sl)
    case Erred(e) =>
      run.status == Running && m.run == run && k < |actions| && RaisesAt(w, actions, o, k, e) &&
      sl.p.trace == Asked(w, actions, o, k) && sl.p.log == IdealAt(w, actions, o, k).log
    case NotedError =>
      run.status == Running && k < |actions| &&
      exists e :: FailedAt(w, actions, o, k, sl, e) &&
                  m.run == run.(status := Failed, error := Some(e), completedAt := m.run.completedAt) && m.run.completedAt.Some?
  }

  /** Waiting times are kept: a run never stands at a step before its waits are over. */
  ghost predicate OnTime(actions: seq<Action>, clock: nat, run: Run, sl: Slice)
    requires run.step <= |actions|
  {
    && (run.status == Pending <==> sl.begun.None?)
    && (run.status == Waiting ==>
          run.step < |actions| && run.resumeAt.Some? && sl.begun.value + WaitSum(actions, run.step + 1) <= run.resumeAt.value)
    && (run.status != Pending && run.status != Waiting ==> sl.begun.value + WaitSum(actions, run.step) <= clock)
    && (run.status == Waiting && sl.mem.Some? ==> run.resumeAt.value <= clock)
    && (run.step < |actions| && actions[run.step].Wait? && Raising(run, sl) ==>
          clock + ParseDuration(actions[run.step].duration) > MAX_TIME)
    && WaitsFitted(actions, run)
  }

  /** Every wait that a run has come to and not failed at could end before the end of time. */
  ghost predicate WaitsFitted(actions: seq<Action>, run: Run) {
    forall j :: 0 <= j < |actions| && (j < run.step || (j == run.step && run.status == Waiting)) && actions[j].Wait? ==>
      ParseDuration(actions[j].duration) <= MAX_TIME
  }

  /** The step the run stands at raised an error. */
  ghost predicate Raising(run: Run, sl: Slice) {
    run.status == Failed || (sl.mem.Some? && (sl.mem.value.phase.Erred? || sl.mem.value.phase.NotedError?))
  }

  /** Each resumption uses up a wait, but for those a crash wasted. */
  ghost predicate Counted(actions: seq<Action>, crashes: nat, run: Run, sl: Slice)
    requires run.step <= |actions|
  {
    var at := if run.status == Waiting && sl.mem.Some? && sl.mem.value.alive && run.step < |actions| then run.step + 1 else run.step;
    sl.resumed <= WaitCount(actions, at) + crashes
  }

  ghost predicate RowOk(id: string, o: Origin, row: Row, sl: Slice) {
    && row.run.id == id && row.run.unitId == o.unitId && row.run.userId == o.userId
    && row.payload == KeptPayload(o)
    && (row.run.status == Waiting <==> sl.p.score.Some?)
    && (sl.p.score.Some? ==> row.run.resumeAt == sl.p.score)
  }

  /** The run of a rerun before its first save. */
  ghost predicate Unsaved(id: string, o: Origin, sl: Slice) {
    && o.rerun && sl.p.score.None? && sl.p.log == map[] && sl.p.trace == [] && sl.begun.None? && sl.resumed == 0
    && sl.mem.Some? && sl.mem.value.phase == Fresh
    && var run := sl.mem.value.run;
       run.id == id && run.unitId == o.unitId && run.userId == o.userId && run.status == Pending && run.step == 0 &&
       run.context == map["payload" := o.payload] && run.error.None? && run.completedAt.None?
  }

  /** The unit does not exist: such a run only ever fails, without a trace. */
  ghost predicate Orphan(sl: Slice)
    requires sl.p.row.Some?
  {
    var run := sl.p.row.value.run;
    sl.p.log == map[] && sl.p.trace == [] && sl.begun.None? && sl.resumed == 0 && run.completedAt.None? &&
    ((run.status == Pending && (sl.mem.Some? ==> sl.mem.value.phase == Fresh && sl.mem.value.run == run))
     || (run.status == Failed && run.error == Some("Unit not found") && sl.mem.None?))
  }

  ghost predicate RunOk(w: World, units: map<string, Unit>, clock: nat, crashes: nat, id: string, sl: Slice) {
    match sl.origin
    case None => sl == Slice(Part(None, None, map[], []), None, None, None, 0)
    case Some(o) =>
      if sl.p.row.None? then Unsaved(id, o, sl)
      else
        var run := sl.p.row.value.run;
        && RowOk(id, o, sl.p.row.value, sl)
        && (o.unitId !in units ==> Orphan(sl))
        && (o.unitId in units ==>
              var actions := units[o.unitId].actions;
              && run.step <= |actions|
              && IdealAt(w, actions, o, run.step).ok && run.context == IdealAt(w, actions, o, run.step).ctx
              && (run.status == Failed || run.error.None?)
              && (run.completedAt.Some? <==> run.status == Success || run.status == Failed)
              && (match sl.mem
                  case None => Resting(w, actions, o, run, sl)
                  case Some(m) => InFlight(w, actions, o, run, m, sl))
              && OnTime(actions, clock, run, sl)
              && Counted(actions, crashes, run, sl))
  }

  /** The rows a tick still has to resume are waiting, due, and no execution works on them. */
  ghost predicate QueueOk(st: State) {
    && (forall i :: 0 <= i < |st.queue| ==>
          var r := st.queue[i];
          r.id in st.sys.db.runs && st.sys.db.runs[r.id].run == r && r.status == Waiting &&
          r.resumeAt.Some? && r.resumeAt.value <= st.sys.clock &&
          (r.id in st.mem ==> !st.mem[r.id].alive))
    && (forall i, j :: 0 <= i < j < |st.queue| ==> st.queue[i].id != st.queue[j].id)
    && (forall id <- st.mem :: st.mem[id].alive && id in st.sys.db.runs && st.sys.db.runs[id].run.status == Waiting ==> st.ticking == Some(id))
  }

  ghost predicate Ok(w: World, st: State) {
    QueueOk(st) &&
    forall id :: RunOk(w, st.sys.db.units, st.sys.clock, st.crashes, id, SliceOf(st, id))
  }

  // ---- Steps, run by run ------------------------------------------------------------------------

  function SavedPart(p: Part, run: Run, payload: Option<Json>): Part {
    var saved := run.(error := NonEmpty(run.error));
    p.(row := Some(if p.row.Some? then
                     p.row.value.(run := p.row.value.run.(status := saved.status, step := saved.step, context := saved.context,
                                                          completedAt := saved.completedAt, resumeAt := saved.resumeAt, error := saved.error))
                   else Row(saved, IfTruthy(payload))),
       score := if run.status == Waiting && run.resumeAt.Some? then run.resumeAt else None)
  }

  function LoggedPart(p: Part, k: nat, action: Action, status: StepStatus, result: Option<Json>, error: Option<string>): Part {
    p.(log := p.log[k := StepRow(if k in p.log then p.log[k].action else action, status, IfTruthy(result), NonEmpty(error))])
  }

  function AskedPart(w: World, p: Part, run: Run, work: Work): Part {
    var call := Request(w, work, run.userId, run.context);
    if call.None? then p else p.(trace := p.trace + [Invocation(run.step, call.value)])
  }

  lemma SavedParts(s: Sys, run: Run, payload: Option<Json>, id: string)
    ensures
      var s' := s.(db := Saved(s.db, run, payload));
      PartOf(s', id) == if id == run.id then SavedPart(PartOf(s, id), run, payload) else PartOf(s, id)
  {
  }

  lemma LoggedParts(s: Sys, run: string, k: nat, action: Action, status: StepStatus, result: Option<Json>, error: Option<string>, id: string)
    ensures
      var s' := s.(db := Logged(s.db, run, k, action, status, result, error));
      PartOf(s', id) == if id == run then LoggedPart(PartOf(s, id), k, action, status, result, error) else PartOf(s, id)
  {
  }

  lemma AskedParts(w: World, s: Sys, run: Run, work: Work, id: string)
    ensures PartOf(Invoked(w, s, run, work), id) == if id == run.id then AskedPart(w, PartOf(s, id), run, work) else PartOf(s, id)
  {
  }

  function Set(sl: Slice, p: Part, run: Run, phase: Phase): Slice {
    sl.(p := p, mem := Some(Mem(run, phase, true)))
  }

  function Unset(sl: Slice, p: Part): Slice {
    sl.(p := p, mem := None)
  }

  /** `StepRun`, seen from the run that takes the step. */
  function StepSlice(w: World, units: map<string, Unit>, clock: nat, sl: Slice, run: Run, phase: Phase): Slice {
    var p := sl.p;
    var actions := if run.unitId in units then units[run.unitId].actions else [];
    match phase
    case Fresh =>
      if run.unitId !in units then Unset(sl, SavedPart(p, NotFound(run), None))
      else
        var started := run.(status := Running);
        Set(sl, SavedPart(p, started, None), started, Head).(begun := if sl.begun.Some? then sl.begun else Some(clock))
    case Head =>
      if run.step >= |actions| then Unset(sl, SavedPart(p, run.(status := Success, completedAt := Some(clock)), None))
      else
        (match actions[run.step]
         case Wait(d) =>
           var t := ResumeTime(clock, d);
           if t.Some? then Unset(sl, SavedPart(p, ParkedRun(run, t.value), None))
           else Set(sl, p, run, Erred(INVALID_TIME))
         case Do(work) =>
           match Answer(w, work, run.userId, run.context, Calls(p.trace))
           case Raised(e, _) => Set(sl, AskedPart(w, p, run, work), run, Erred(e))
           case Returned(v, _) => Set(sl, AskedPart(w, p, run, work), run, Answered(v)))
    case Answered(v) =>
      if run.step < |actions| && actions[run.step].Do? then
        var work := actions[run.step].work;
        Set(sl, LoggedPart(p, run.step, Do(work), StepSuccess, v, None), NotedRun(run, work, v), Noted)
      else sl
    case Noted =>
      var next := run.(step := run.step + 1);
      Set(sl, SavedPart(p, next, None), next, Head)
    case Erred(e) =>
      if run.step < |actions| then
        Set(sl, LoggedPart(p, run.step, actions[run.step], StepFailed, None, Some(e)),
            run.(status := Failed, error := Some(e), completedAt := Some(clock)), NotedError)
      else sl
    case NotedError => Unset(sl, SavedPart(p, run, None))
  }

  lemma AtSlices(st: State, sys: Sys, run: Run, phase: Phase, id: string)
    ensures SliceOf(At(st, sys, run, phase), id) ==
              if id == run.id then Set(SliceOf(st, id), PartOf(sys, id), run, phase) else SliceOf(st, id).(p := PartOf(sys, id))
  {
  }

  lemma LeftSlices(st: State, sys: Sys, gone: string, id: string)
    ensures SliceOf(Left(st, sys, gone), id) ==
              if id == gone then Unset(SliceOf(st, id), PartOf(sys, id)) else SliceOf(st, id).(p := PartOf(sys, id))
  {
  }

  lemma HeadSlices(w: World, st: State, run: Run, id: string)
    requires run.id in st.mem && st.mem[run.id] == Mem(run, Head, true)
    ensures
      var st' := StepRun(w, st, run, Head);
      SliceOf(st', id) == (if id == run.id then StepSlice(w, st.sys.db.units, st.sys.clock, SliceOf(st, id), run, Head) else SliceOf(st, id))
  {
    hide SavedPart, LoggedPart, AskedPart, Saved, Logged, Answer, Request;
    var s, actions := st.sys, ActionsOf(st, run.unitId);
    if run.step >= |actions| {
      SavedParts(s, FinishedRun(s, run), None, id);
      LeftSlices(st, Save(s, FinishedRun(s, run)), run.id, id);
    } else {
      match actions[run.step]
      case Wait(d) =>
        var t := ResumeTime(s.clock, d);
        if t.Some? {
          SavedParts(s, ParkedRun(run, t.value), None, id);
          LeftSlices(st, Save(s, ParkedRun(run, t.value)), run.id, id);
        } else {
          AtSlices(st, s, run, Erred(INVALID_TIME), id);
        }
      case Do(work) =>
        var s1 := Invoked(w, s, run, work);
        AskedParts(w, s, run, work, id);
        match Answer(w, work, run.userId, run.context, Calls(TraceOf(s, run.id)))
        case Raised(e, _) => AtSlices(st, s1, run, Erred(e), id);
        case Returned(v, _) => AtSlices(st, s1, run, Answered(v), id);
    }
  }

  /** A step changes its own run as `StepSlice` says and no other run at all. */
  lemma StepSlices(w: World, st: State, run: Run, phase: Phase, id: string)
    requires run.id in st.mem && st.mem[run.id] == Mem(run, phase, true)
    ensures
      var st' := StepRun(w, st, run, phase);
      SliceOf(st', id) == (if id == run.id then StepSlice(w, st.sys.db.units, st.sys.clock, SliceOf(st, id), run, phase) else SliceOf(st, id))
  {
    hide SavedPart, LoggedPart, AskedPart, Saved, Logged, Answer, Request;
    var s, actions := st.sys, ActionsOf(st, run.unitId);
    match phase
    case Fresh =>
      if run.unitId !in s.db.units {
        SavedParts(s, NotFound(run), None, id);
        LeftSlices(st, Save(s, NotFound(run)), run.id, id);
      } else {
        var started := run.(status := Running);
        SavedParts(s, started, None, id);
        AtSlices(st, Save(s, started), started, Head, id);
      }
    case Head => HeadSlices(w, st, run, id);
    case Answered(v) =>
      if run.step < |actions| && actions[run.step].Do? {
        var work := actions[run.step].work;
        LoggedParts(s, run.id, run.step, Do(work), StepSuccess, v, None, id);
        AtSlices(st, NotedSuccess(s, run, work, v), NotedRun(run, work, v), Noted, id);
      }
    case Noted =>
      var next := run.(step := run.step + 1);
      SavedParts(s, next, None, id);
      AtSlices(st, Save(s, next), next, Head, id);
    case Erred(e) =>
      if run.step < |actions| {
        LoggedParts(s, run.id, run.step, actions[run.step], StepFailed, None, Some(e), id);
        AtSlices(st, NotedFailure(s, run, actions[run.step], e), FailedRun(s, run, e), NotedError, id);
      }
    case NotedError =>
      SavedParts(s, run, None, id);
      LeftSlices(st, Save(s, run), run.id, id);
  }

  // ---- Every happening keeps the invariant -----------------------------------------------------

  /** A later clock changes nothing. */
  lemma LaterOk(w: World, units: map<string, Unit>, clock: nat, clock': nat, crashes: nat, id: string, sl: Slice)
    requires RunOk(w, units, clock, crashes, id, sl) && clock <= clock'
    ensures RunOk(w, units, clock', crashes, id, sl)
  {
  }

  /** Below step `k`, exactly the actions that are not waits are logged, all as successes. */
  lemma {:induction false} IdealLog(w: World, actions: seq<Action>, o: Origin, k: nat)
    requires k <= |actions| && IdealAt(w, actions, o, k).ok
    ensures forall j: nat :: j in IdealAt(w, actions, o, k).log <==> j < k && actions[j].Do?
    ensures forall j <- IdealAt(w, actions, o, k).log ::
              IdealAt(w, actions, o, k).log[j].status == StepSuccess && IdealAt(w, actions, o, k).log[j].action == actions[j]
  {
    if k == 0 {
    } else {
      IdealLog(w, actions, o, k - 1);
    }
  }

  /** The invariant of a run whose execution is alive at `phase`. */
  ghost predicate Alive(w: World, units: map<string, Unit>, clock: nat, crashes: nat, id: string, sl: Slice, phase: Phase) {
    RunOk(w, units, clock, crashes, id, sl) && sl.mem.Some? && sl.mem.value.alive && sl.mem.value.phase == phase
  }

  lemma FreshOk(w: World, units: map<string, Unit>, clock: nat, crashes: nat, id: string, sl: Slice)
    requires Alive(w, units, clock, crashes, id, sl, Fresh)
    ensures RunOk(w, units, clock, crashes, id, StepSlice(w, units, clock, sl, sl.mem.value.run, Fresh))
  {
    hide Asked, ReplyAt, WaitCount;
  }

  lemma HeadOk(w: World, units: map<string, Unit>, clock: nat, crashes: nat, id: string, sl: Slice)
    requires Alive(w, units, clock, crashes, id, sl, Head)
    ensures RunOk(w, units, clock, crashes, id, StepSlice(w, units, clock, sl, sl.mem.value.run, Head))
  {
    var run := sl.mem.value.run;
    if run.unitId in units && run.step < |units[run.unitId].actions| && units[run.unitId].actions[run.step].Do? {
      AskOk(w, units, clock, crashes, id, sl);
    } else {
      FinishOk(w, units, clock, crashes, id, sl);
    }
  }

  /** At the end of the list, or at a wait. */
  lemma FinishOk(w: World, units: map<string, Unit>, clock: nat, crashes: nat, id: string, sl: Slice)
    requires Alive(w, units, clock, crashes, id, sl, Head)
    requires
      var run := sl.mem.value.run;
      run.unitId in units && run.step < |units[run.unitId].actions| ==> units[run.unitId].actions[run.step].Wait?
    ensures RunOk(w, units, clock, crashes, id, StepSlice(w, units, clock, sl, sl.mem.value.run, Head))
  {
    hide IdealAt, ReplyAt;
  }

  /** At an action that is not a wait. */
  lemma AskOk(w: World, units: map<string, Unit>, clock: nat, crashes: nat, id: string, sl: Slice)
    requires Alive(w, units, clock, crashes, id, sl, Head)
    requires
      var run := sl.mem.value.run;
      run.unitId in units && run.step < |units[run.unitId].actions| && units[run.unitId].actions[run.step].Do?
    ensures RunOk(w, units, clock, crashes, id, StepSlice(w, units, clock, sl, sl.mem.value.run, Head))
  {
    hide IdealAt, WaitSum, WaitCount, Answer, Request;
  }

  lemma AnsweredOk(w: World, units: map<string, Unit>, clock: nat, crashes: nat, id: string, sl: Slice, v: Option<Json>)
    requires Alive(w, units, clock, crashes, id, sl, Answered(v))
    ensures RunOk(w, units, clock, crashes, id, StepSlice(w, units, clock, sl, sl.mem.value.run, Answered(v)))
  {
    var o, k := sl.origin.value, sl.p.row.value.run.step;
    IdealLog(w, units[o.unitId].actions, o, k);
  }

  lemma NotedOk(w: World, units: map<string, Unit>, clock: nat, crashes: nat, id: string, sl: Slice)
    requires Alive(w, units, clock, crashes, id, sl, Noted)
    ensures RunOk(w, units, clock, crashes, id, StepSlice(w, units, clock, sl, sl.mem.value.run, Noted))
  {
  }

  lemma ErredOk(w: World, units: map<string, Unit>, clock: nat, crashes: nat, id: string, sl: Slice, e: string)
    requires Alive(w, units, clock, crashes, id, sl, Erred(e))
    ensures RunOk(w, units, clock, crashes, id, StepSlice(w, units, clock, sl, sl.mem.value.run, Erred(e)))
  {
    var o, k := sl.origin.value, sl.p.row.value.run.step;
    IdealLog(w, units[o.unitId].actions, o, k);
    assert FailedAt(w, units[o.unitId].actions, o, k, StepSlice(w, units, clock, sl, sl.mem.value.run, Erred(e)), e);
  }

  lemma NotedErrorOk(w: World, units: map<string, Unit>, clock: nat, crashes: nat, id: string, sl: Slice)
    requires Alive(w, units, clock, crashes, id, sl, NotedError)
    ensures RunOk(w, units, clock, crashes, id, StepSlice(w, units, clock, sl, sl.mem.value.run, NotedError))
  {
  }

  lemma StepSliceOk(w: World, units: map<string, Unit>, clock: nat, crashes: nat, id: string, sl: Slice)
    requires RunOk(w, units, clock, crashes, id, sl) && sl.mem.Some? && sl.mem.value.alive
    ensures RunOk(w, units, clock, crashes, id, StepSlice(w, units, clock, sl, sl.mem.value.run, sl.mem.value.phase))
  {
    match sl.mem.value.phase
    case Fresh => FreshOk(w, units, clock, crashes, id, sl);
    case Head => HeadOk(w, units, clock, crashes, id, sl);
    case Answered(v) => AnsweredOk(w, units, clock, crashes, id, sl, v);
    case Noted => NotedOk(w, units, clock, crashes, id, sl);
    case Erred(e) => ErredOk(w, units, clock, crashes, id, sl, e);
    case NotedError => NotedErrorOk(w, units, clock, crashes, id, sl);
  }

  /** What a step leaves alone in the rest of the state. */
  ghost predicate SameRest(st: State, st': State, id: string) {
    st'.sys.db.units == st.sys.db.units && st'.crashes == st.crashes && st'.queue == st.queue && st'.born == st.born &&
    st.sys.clock <= st'.sys.clock && (st'.ticking == st.ticking || (st.ticking == Some(id) && st'.ticking.None?))
  }

  lemma AtRest(st: State, sys: Sys, run: Run, phase: Phase)
    requires sys.db.units == st.sys.db.units && st.sys.clock <= sys.clock
    ensures SameRest(st, At(st, sys, run, phase), run.id) && SameRest(st, Left(st, sys, run.id), run.id)
  {
  }

  lemma StepRest(w: World, st: State, run: Run, phase: Phase)
    ensures SameRest(st, StepRun(w, st, run, phase), run.id)
  {
    var s, actions := st.sys, ActionsOf(st, run.unitId);
    match phase
    case Fresh =>
      var started := run.(status := Running);
      AtRest(st, Save(s, NotFound(run)), run, Head);
      AtRest(st, Save(s, started), started, Head);
    case Head =>
      if run.step >= |actions| {
        AtRest(st, Save(s, FinishedRun(s, run)), run, Head);
      } else if actions[run.step].Wait? {
        var t := ResumeTime(s.clock, actions[run.step].duration);
        if t.Some? { AtRest(st, Save(s, ParkedRun(run, t.value)), run, Head); }
        AtRest(st, s, run, Erred(INVALID_TIME));
      } else {
        var work := actions[run.step].work;
        var reply := Answer(w, work, run.userId, run.context, Calls(TraceOf(s, run.id)));
        AtRest(st, Invoked(w, s, run, work), run, if reply.Raised? then Erred(reply.error) else Answered(reply.value));
      }
    case Answered(v) =>
      if run.step < |actions| && actions[run.step].Do? {
        var work := actions[run.step].work;
        AtRest(st, NotedSuccess(s, run, work, v), NotedRun(run, work, v), Noted);
      }
    case Noted =>
      var next := run.(step := run.step + 1);
      AtRest(st, Save(s, next), next, Head);
    case Erred(e) =>
      if run.step < |actions| { AtRest(st, NotedFailure(s, run, actions[run.step], e), FailedRun(s, run, e), NotedError); }
    case NotedError => AtRest(st, Save(s, run), run, Head);
  }

  /** After a step its run is not both waiting and in memory. */
  lemma StepNotWaiting(w: World, units: map<string, Unit>, clock: nat, crashes: nat, id: string, sl: Slice)
    requires RunOk(w, units, clock, crashes, id, sl) && sl.mem.Some? && sl.mem.value.alive
    ensures
      var sl' := StepSlice(w, units, clock, sl, sl.mem.value.run, sl.mem.value.phase);
      sl'.mem.Some? ==> sl'.p.row.Some? && sl'.p.row.value.run.status == Running
  {
  }

  lemma MemRunId(w: World, st: State, id: string)
    requires Ok(w, st) && id in st.mem
    ensures st.mem[id].run.id == id
  {
    assert RunOk(w, st.sys.db.units, st.sys.clock, st.crashes, id, SliceOf(st, id));
  }

  lemma StepOk(w: World, st: State, id: string)
    requires Ok(w, st) && id in st.mem && st.mem[id].alive
    ensures Ok(w, StepRun(w, st, st.mem[id].run, st.mem[id].phase))
  {
    var m := st.mem[id];
    var st' := StepRun(w, st, m.run, m.phase);
    MemRunId(w, st, id);
    StepRest(w, st, m.run, m.phase);
    forall x ensures RunOk(w, st'.sys.db.units, st'.sys.clock, st'.crashes, x, SliceOf(st', x)) {
      assert RunOk(w, st.sys.db.units, st.sys.clock, st.crashes, x, SliceOf(st, x));
      StepSlices(w, st, m.run, m.phase, x);
      if x == id { StepSliceOk(w, st.sys.db.units, st.sys.clock, st.crashes, id, SliceOf(st, id)); }
      LaterOk(w, st.sys.db.units, st.sys.clock, st'.sys.clock, st.crashes, x, SliceOf(st', x));
    }
    StepQueueOk(w, st, id);
  }

  lemma StepQueueOk(w: World, st: State, id: string)
    requires Ok(w, st) && id in st.mem && st.mem[id].alive
    ensures QueueOk(StepRun(w, st, st.mem[id].run, st.mem[id].phase))
  {
    var m := st.mem[id];
    var st' := StepRun(w, st, m.run, m.phase);
    MemRunId(w, st, id);
    StepRest(w, st, m.run, m.phase);
    forall i | 0 <= i < |st'.queue|
      ensures
        var r := st'.queue[i];
        r.id in st'.sys.db.runs && st'.sys.db.runs[r.id].run == r && (r.id in st'.mem ==> !st'.mem[r.id].alive)
    {
      var r := st.queue[i];
      StepSlices(w, st, m.run, m.phase, r.id);
      assert SliceOf(st', r.id) == SliceOf(st, r.id);
    }
    forall x | x in st'.mem && st'.mem[x].alive && x in st'.sys.db.runs && st'.sys.db.runs[x].run.status == Waiting
      ensures st'.ticking == Some(x)
    {
      StepSlices(w, st, m.run, m.phase, x);
      if x == id {
        assert RunOk(w, st.sys.db.units, st.sys.clock, st.crashes, id, SliceOf(st, id));
        StepNotWaiting(w, st.sys.db.units, st.sys.clock, st.crashes, id, SliceOf(st, id));
      }
    }
  }

  lemma ArrivedOk(w: World, units: map<string, Unit>, clock: nat, crashes: nat, run: Run, payload: Json, m: Option<Mem>)
    requires run.status == Pending && run.step == 0 && run.context == map["payload" := payload] &&
             run.error.None? && run.completedAt.None?
    requires m == None || m == Some(Mem(run, Fresh, true))
    ensures
      var o := Origin(run.unitId, run.userId, payload, false);
      var row := Row(run, IfTruthy(Some(payload)));
      RunOk(w, units, clock, crashes, run.id, Slice(Part(Some(row), None, map[], []), m, Some(o), None, 0))
  {
    hide Asked, ReplyAt;
  }

  /** Nothing is known about a run that was never started. */
  lemma Unborn(w: World, st: State, id: string)
    requires Ok(w, st) && id !in st.born
    ensures SliceOf(st, id) == Slice(Part(None, None, map[], []), None, None, None, 0)
    ensures id !in st.sys.db.runs && id !in st.mem
  {
    assert RunOk(w, st.sys.db.units, st.sys.clock, st.crashes, id, SliceOf(st, id));
  }

  lemma ArriveOk(w: World, st: State, h: Happening)
    requires Ok(w, st) && h.Arrive? && h.id !in st.born
    ensures Ok(w, Apply(w, st, h))
  {
    hide RunOk;
    var st' := Apply(w, st, h);
    var run := NewRun(st, h.id, h.unitId, h.eventId, h.userId, h.payload);
    Unborn(w, st, h.id);
    ArrivedOk(w, st.sys.db.units, st.sys.clock, st.crashes, run, h.payload, Some(Mem(run, Fresh, true)));
    forall x ensures RunOk(w, st'.sys.db.units, st'.sys.clock, st'.crashes, x, SliceOf(st', x)) {
      assert RunOk(w, st.sys.db.units, st.sys.clock, st.crashes, x, SliceOf(st, x));
      SavedParts(st.sys, run, Some(h.payload), x);
      if x != h.id { assert SliceOf(st', x) == SliceOf(st, x); }
    }
  }

  lemma UndispatchedOk(w: World, st: State, h: Happening)
    requires Ok(w, st) && h.Undispatched? && h.id !in st.born
    ensures Ok(w, Apply(w, st, h))
  {
    hide RunOk;
    var st' := Apply(w, st, h);
    var run := NewRun(st, h.id, h.unitId, h.eventId, h.userId, h.payload);
    Unborn(w, st, h.id);
    ArrivedOk(w, st.sys.db.units, st.sys.clock, st.crashes, run, h.payload, None);
    forall x ensures RunOk(w, st'.sys.db.units, st'.sys.clock, st'.crashes, x, SliceOf(st', x)) {
      assert RunOk(w, st.sys.db.units, st.sys.clock, st.crashes, x, SliceOf(st, x));
      SavedParts(st.sys, run, Some(h.payload), x);
      if x != h.id { assert SliceOf(st', x) == SliceOf(st, x); }
    }
  }

  lemma RerunBornOk(w: World, units: map<string, Unit>, clock: nat, crashes: nat, run: Run, payload: Json)
    requires run.status == Pending && run.step == 0 && run.context == map["payload" := payload] &&
             run.error.None? && run.completedAt.None?
    ensures
      var o := Origin(run.unitId, run.userId, payload, true);
      RunOk(w, units, clock, crashes, run.id, Slice(Part(None, None, map[], []), Some(Mem(run, Fresh, true)), Some(o), None, 0))
  {
    hide Asked, ReplyAt, IdealAt;
  }

  lemma RerunOk(w: World, st: State, h: Happening)
    requires Ok(w, st) && h.Rerun? && h.id !in st.born && h.source in st.sys.db.runs
    ensures Ok(w, Apply(w, st, h))
  {
    hide RunOk;
    var st' := Apply(w, st, h);
    Unborn(w, st, h.id);
    var row := st.sys.db.runs[h.source];
    var run := RerunOf(st.sys, row, h.id);
    if run.Some? {
      RerunBornOk(w, st.sys.db.units, st.sys.clock, st.crashes, run.value, row.payload.value);
      forall x ensures RunOk(w, st'.sys.db.units, st'.sys.clock, st'.crashes, x, SliceOf(st', x)) {
        assert RunOk(w, st.sys.db.units, st.sys.clock, st.crashes, x, SliceOf(st, x));
        if x != h.id { assert SliceOf(st', x) == SliceOf(st, x); }
      }
    }
  }

  /** A tick reads only rows that are waiting and due, and no execution works on any of them. */
  lemma TickOk(w: World, st: State, due: seq<Run>)
    requires Ok(w, st) && st.ticking.None? && IsDue(st.sys.db, st.sys.clock, due)
    ensures Ok(w, st.(queue := due))
  {
    hide Asked, ReplyAt, IdealAt, WaitSum, WaitCount;
    var st' := st.(queue := due);
    forall i | 0 <= i < |due|
      ensures due[i].status == Waiting && due[i].resumeAt.Some? && due[i].resumeAt.value <= st.sys.clock
    {
      assert RunOk(w, st.sys.db.units, st.sys.clock, st.crashes, due[i].id, SliceOf(st, due[i].id));
    }
    forall x ensures RunOk(w, st'.sys.db.units, st'.sys.clock, st'.crashes, x, SliceOf(st', x)) {
      assert RunOk(w, st.sys.db.units, st.sys.clock, st.crashes, x, SliceOf(st, x));
      assert SliceOf(st', x) == SliceOf(st, x);
    }
  }

  lemma ResumedOk(w: World, units: map<string, Unit>, clock: nat, crashes: nat, id: string, sl: Slice)
    requires RunOk(w, units, clock, crashes, id, sl) && sl.p.row.Some? && (sl.mem.Some? ==> !sl.mem.value.alive)
    requires
      var run := sl.p.row.value.run;
      run.status == Waiting && run.resumeAt.Some? && run.resumeAt.value <= clock
    ensures
      var m := Mem(Resumed(sl.p.row.value.run), Fresh, true);
      RunOk(w, units, clock, crashes, id, sl.(mem := Some(m), resumed := sl.resumed + 1))
  {
    hide Asked, ReplyAt, IdealAt, WaitSum;
  }

  lemma ResumeQueueOk(w: World, st: State)
    requires QueueOk(st) && st.queue != [] && st.ticking.None?
    ensures
      var r := st.queue[0];
      QueueOk(Apply(w, st, ResumeNext)) && r.id in st.sys.db.runs && st.sys.db.runs[r.id].run == r &&
      r.status == Waiting && r.resumeAt.Some? && r.resumeAt.value <= st.sys.clock && (r.id in st.mem ==> !st.mem[r.id].alive)
  {
  }

  lemma ResumeOk(w: World, st: State)
    requires Ok(w, st) && st.queue != [] && st.ticking.None?
    ensures Ok(w, Apply(w, st, ResumeNext))
  {
    hide RunOk, QueueOk;
    var st', r := Apply(w, st, ResumeNext), st.queue[0];
    ResumeQueueOk(w, st);
    assert RunOk(w, st.sys.db.units, st.sys.clock, st.crashes, r.id, SliceOf(st, r.id));
    ResumedOk(w, st.sys.db.units, st.sys.clock, st.crashes, r.id, SliceOf(st, r.id));
    forall x ensures RunOk(w, st'.sys.db.units, st'.sys.clock, st'.crashes, x, SliceOf(st', x)) {
      assert RunOk(w, st.sys.db.units, st.sys.clock, st.crashes, x, SliceOf(st, x));
      if x != r.id { assert SliceOf(st', x) == SliceOf(st, x); }
    }
  }

  lemma CrashedOk(w: World, units: map<string, Unit>, clock: nat, crashes: nat, id: string, sl: Slice)
    requires RunOk(w, units, clock, crashes, id, sl) && sl.mem.Some?
    ensures RunOk(w, units, clock, crashes + 1, id, sl.(mem := Some(sl.mem.value.(alive := false))))
  {
    hide IdealAt, Asked, ReplyAt, WaitSum;
  }

  lemma CrashOk(w: World, st: State)
    requires Ok(w, st)
    ensures Ok(w, Apply(w, st, Crash))
  {
    hide RunOk;
    var st' := Apply(w, st, Crash);
    forall x ensures RunOk(w, st'.sys.db.units, st'.sys.clock, st'.crashes, x, SliceOf(st', x)) {
      var sl := SliceOf(st, x);
      assert RunOk(w, st.sys.db.units, st.sys.clock, st.crashes, x, sl);
      if sl.mem.Some? {
        CrashedOk(w, st.sys.db.units, st.sys.clock, st.crashes, x, sl);
        assert SliceOf(st', x) == sl.(mem := Some(sl.mem.value.(alive := false)));
      } else {
        MoreCrashesOk(w, st.sys.db.units, st.sys.clock, st.crashes, x, sl);
        assert SliceOf(st', x) == sl;
      }
    }
  }

  lemma MoreCrashesOk(w: World, units: map<string, Unit>, clock: nat, crashes: nat, id: string, sl: Slice)
    requires RunOk(w, units, clock, crashes, id, sl)
    ensures RunOk(w, units, clock, crashes + 1, id, sl)
  {
    hide IdealAt, Asked, ReplyAt, WaitSum;
  }

  lemma PassOk(w: World, st: State, ms: nat)
    requires Ok(w, st)
    ensures Ok(w, Apply(w, st, Pass(ms)))
  {
    hide RunOk;
    var st' := Apply(w, st, Pass(ms));
    forall x ensures RunOk(w, st.sys.db.units, st.sys.clock + ms, st.crashes, x, SliceOf(st', x)) {
      assert RunOk(w, st.sys.db.units, st.sys.clock, st.crashes, x, SliceOf(st, x));
      LaterOk(w, st.sys.db.units, st.sys.clock, st.sys.clock + ms, st.crashes, x, SliceOf(st, x));
      assert SliceOf(st', x) == SliceOf(st, x);
    }
  }

  lemma ApplyOk(w: World, st: State, h: Happening)
    requires Ok(w, st)
    ensures Ok(w, Apply(w, st, h))
  {
    hide RunOk, QueueOk, StepRun;
    match h
    case Arrive(id, _, _, _, _) => if id !in st.born { ArriveOk(w, st, h); }
    case Undispatched(id, _, _, _, _) => if id !in st.born { UndispatchedOk(w, st, h); }
    case Rerun(source, id) => if id !in st.born && source in st.sys.db.runs { RerunOk(w, st, h); }
    case Step(id) => if id in st.mem && st.mem[id].alive { StepOk(w, st, id); }
    case Tick(due) => if st.queue == [] && st.ticking.None? && IsDue(st.sys.db, st.sys.clock, due) { TickOk(w, st, due); }
    case ResumeNext => if st.queue != [] && st.ticking.None? { ResumeOk(w, st); }
    case Pass(ms) => PassOk(w, st, ms);
    case Crash => CrashOk(w, st);
  }

  /** The invariant holds after every list of happenings. */
  lemma {:induction false} AlwaysOk(w: World, units: map<string, Unit>, hs: seq<Happening>)
    ensures Ok(w, After(w, Initial(units), hs))
    decreases hs
  {
    if hs == [] {
    } else {
      AlwaysOk(w, units, hs[..|hs| - 1]);
      ApplyOk(w, After(w, Initial(units), hs[..|hs| - 1]), hs[|hs| - 1]);
    }
  }
}
