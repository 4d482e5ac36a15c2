/** From a match to executions: the runs that an interrupted match leaves behind, as happenings of the
    automation engine. */
module Delivery {
  import opened Wrappers
  import opened Json
  import opened Automation
  import opened Store
  import opened Runs
  import opened Engine
  import opened Guarantees
  import M = Matching

  /** The runs are saved one by one, and none is handed to execution. */
  function LeftBehind(event: Event, runs: seq<Run>): seq<Happening> {
    seq(|runs|, i requires 0 <= i < |runs| => Undispatched(runs[i].id, runs[i].unitId, event.id, event.userId, event.payload))
  }

  /** The runs are as a match creates them now, under ids not used before. */
  ghost predicate AreNew(st: State, event: Event, runs: seq<Run>) {
    (forall a :: 0 <= a < |runs| ==>
       runs[a].id !in st.born &&
       runs[a] == NewRun(st, runs[a].id, runs[a].unitId, event.id, event.userId, event.payload)) &&
    (forall a, b :: 0 <= a < b < |runs| ==> runs[a].id != runs[b].id)
  }

  /** What the saving of these runs changes: their rows, and nothing else. */
  ghost predicate OnlySaved(st: State, st': State, event: Event, runs: seq<Run>) {
    st'.sys.db.runs == M.WithRows(st.sys.db.runs, event.payload, runs) &&
    st'.sys.clock == st.sys.clock && st'.sys.trace == st.sys.trace && st'.sys.db.steps == st.sys.db.steps &&
    st'.mem == st.mem && st'.born.Keys == st.born.Keys + Ids(runs)
  }

  function Ids(runs: seq<Run>): set<string> {
    set a | 0 <= a < |runs| :: runs[a].id
  }

  lemma {:induction false} SavingLeavesRows(w: World, st: State, event: Event, runs: seq<Run>)
    requires Ok(w, st) && AreNew(st, event, runs)
    ensures OnlySaved(st, After(w, st, LeftBehind(event, runs)), event, runs)
    decreases runs
  {
    hide Ok, Apply;
    var hs := LeftBehind(event, runs);
    if runs == [] {
      assert hs == [] && Ids(runs) == {};
    } else {
      var front, last := runs[..|runs| - 1], runs[|runs| - 1];
      assert runs == front + [last];
      assert hs[..|hs| - 1] == LeftBehind(event, front);
      NewFront(st, event, front, last);
      SavingLeavesRows(w, st, event, front);
      Unborn(w, st, last.id);
      SavingOneMore(w, st, After(w, st, LeftBehind(event, front)), event, front, last);
    }
  }

  lemma NewFront(st: State, event: Event, front: seq<Run>, last: Run)
    requires AreNew(st, event, front + [last])
    ensures AreNew(st, event, front) && last.id !in st.born && last.id !in Ids(front)
    ensures last == NewRun(st, last.id, last.unitId, event.id, event.userId, event.payload)
  {
    var runs := front + [last];
    assert runs[|front|] == last && forall a :: 0 <= a < |front| ==> runs[a] == front[a];
  }

  lemma SavingOneMore(w: World, st: State, st1: State, event: Event, front: seq<Run>, last: Run)
    requires OnlySaved(st, st1, event, front)
    requires last.id !in st.sys.db.runs && last.id !in st.born && last.id !in Ids(front)
    requires last == NewRun(st, last.id, last.unitId, event.id, event.userId, event.payload)
    ensures
      OnlySaved(st, Apply(w, st1, Undispatched(last.id, last.unitId, event.id, event.userId, event.payload)), event, front + [last])
  {
    NoRow(st.sys.db.runs, event.payload, front, last.id);
    MoreRows(st.sys.db.runs, event.payload, front, last);
    hide M.WithRows, Ids;
  }

  lemma NoRow(rows: map<string, Row>, payload: Json, front: seq<Run>, id: string)
    requires id !in rows && id !in Ids(front)
    ensures id !in M.WithRows(rows, payload, front)
  {
    M.RowsOfRuns(rows, payload, front, id);
  }

  lemma MoreRows(rows: map<string, Row>, payload: Json, front: seq<Run>, last: Run)
    ensures M.WithRows(rows, payload, front + [last]) ==
              M.WithRows(rows, payload, front)[last.id := Row(last, IfTruthy(Some(payload)))]
    ensures Ids(front + [last]) == Ids(front) + {last.id}
  {
    var runs := front + [last];
    assert runs[..|runs| - 1] == front && runs[|front|] == last;
  }

  /** An interrupted match, in any reachable state: the table then is what the match made it, and no
      run it saved is ever started. Whatever happens next, its row stays pending at step 0 with its
      first context, nothing is logged for it, and nothing is called on its behalf. */
  lemma NeverStarted(w: World, units: map<string, Unit>, hs: seq<Happening>, j: M.Judge, us: seq<Unit>, event: Event,
                     ids: nat -> string, saved: seq<Run>, more: seq<Happening>, a: nat)
    requires
      var st := Reach(w, units, hs);
      M.AreRunsFor(j, us, event, ids, st.sys.clock, saved) && a < |saved| &&
      (forall i, k: nat :: i != k ==> ids(i) != ids(k)) && (forall i: nat :: ids(i) !in st.born)
    ensures
      var st, st1 := Reach(w, units, hs), Reach(w, units, hs + LeftBehind(event, saved));
      var st2, id := Reach(w, units, hs + LeftBehind(event, saved) + more), saved[a].id;
      st1.sys.db.runs == M.WithRows(st.sys.db.runs, event.payload, saved) &&
      id in st2.sys.db.runs && st2.sys.db.runs[id] == Row(saved[a], IfTruthy(Some(event.payload))) &&
      saved[a].status == Pending && saved[a].step == 0 &&
      TraceOf(st2.sys, id) == [] && StepsOf(st2.sys.db, id) == map[]
  {
    hide After, Ok;
    var st := Reach(w, units, hs);
    AlwaysOk(w, units, hs);
    CreatedAreNew(st, j, us, event, ids, saved);
    SavingLeavesRows(w, st, event, saved);
    AfterAppend(w, Initial(units), hs, LeftBehind(event, saved));
    Unborn(w, st, saved[a].id);
    SavedRow(st.sys.db.runs, event.payload, saved, a);
    LeftIsStuck(st, Reach(w, units, hs + LeftBehind(event, saved)), event, saved, a);
    StuckForGood(w, units, hs + LeftBehind(event, saved), more, saved[a].id);
    SameTrace(Reach(w, units, hs + LeftBehind(event, saved)), Reach(w, units, hs + LeftBehind(event, saved) + more), saved[a].id);
  }

  lemma CreatedAreNew(st: State, j: M.Judge, us: seq<Unit>, event: Event, ids: nat -> string, saved: seq<Run>)
    requires M.AreRunsFor(j, us, event, ids, st.sys.clock, saved)
    requires (forall i, k: nat :: i != k ==> ids(i) != ids(k)) && (forall i: nat :: ids(i) !in st.born)
    ensures AreNew(st, event, saved)
  {
    hide M.Chosen, M.Evaluated;
    forall a | 0 <= a < |saved| ensures saved[a].id == ids(a) {
    }
  }

  lemma {:induction false} SavedRow(rows: map<string, Row>, payload: Json, runs: seq<Run>, a: nat)
    requires a < |runs| && forall b, c :: 0 <= b < c < |runs| ==> runs[b].id != runs[c].id
    ensures runs[a].id in M.WithRows(rows, payload, runs)
    ensures M.WithRows(rows, payload, runs)[runs[a].id] == Row(runs[a], IfTruthy(Some(payload)))
  {
    if a == |runs| - 1 {
    } else {
      SavedRow(rows, payload, runs[..|runs| - 1], a);
    }
  }

  lemma LeftIsStuck(st: State, st1: State, event: Event, saved: seq<Run>, a: nat)
    requires a < |saved| && AreNew(st, event, saved) && OnlySaved(st, st1, event, saved)
    requires saved[a].id !in st.mem && SliceOf(st, saved[a].id).p.trace == [] && SliceOf(st, saved[a].id).p.log == map[]
    ensures
      var id := saved[a].id;
      id in st1.sys.db.runs && Stuck(st1, id) && TraceOf(st1.sys, id) == [] && StepsOf(st1.sys.db, id) == map[]
  {
    SavedRow(st.sys.db.runs, event.payload, saved, a);
  }

  lemma SameTrace(a: State, b: State, id: string)
    requires PartOf(a.sys, id) == PartOf(b.sys, id)
    ensures Get(a.sys.db.runs, id) == Get(b.sys.db.runs, id) && StepsOf(a.sys.db, id) == StepsOf(b.sys.db, id)
    ensures TraceOf(a.sys, id) == TraceOf(b.sys, id)
  {
  }
}
