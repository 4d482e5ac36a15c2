/** From an event to the runs it starts (src/cortex/matcher.ts). JavaScript expressions are an
    arbitrary predicate on the payload, false when they throw; conditions asked of the model may
    answer anything or throw. */
module Matching {
  import opened Wrappers
  import opened Json
  import opened Automation
  import opened Store

  datatype Verdict = Answers(yes: bool) | Throws(error: string)

  datatype Judge = Judge(expression: (string, Json) -> bool, semantic: (Condition, Json) -> Verdict)

  predicate Triggered(u: Unit, event: Event) {
    u.source == event.source && u.event == event.event && u.status == Active
  }

  /** evalCondition */
  function VerdictOf(j: Judge, c: Condition, payload: Json): Verdict {
    match c
    case Eval(expr) => Answers(j.expression(expr, payload))
    case Semantic(_, _, _) => j.semantic(c, payload)
    case OtherCondition(_) => Answers(true)
  }

  predicate FilterHolds(j: Judge, u: Unit, payload: Json) {
    u.filter.Some? && u.filter.value != "" ==> j.expression(u.filter.value, payload)
  }

  /** The filter and the first `k` conditions hold, so the evaluation gets to condition `k`. */
  predicate Reaches(j: Judge, u: Unit, payload: Json, k: nat)
    requires k <= |u.conditions|
  {
    FilterHolds(j, u, payload) && forall i :: 0 <= i < k ==> VerdictOf(j, u.conditions[i], payload) == Answers(true)
  }

  /** The unit's filter, if any, and all its conditions hold. */
  predicate Passes(j: Judge, u: Unit, payload: Json) {
    Reaches(j, u, payload, |u.conditions|)
  }

  /** A condition that the evaluation gets to throws. */
  predicate Raises(j: Judge, u: Unit, payload: Json) {
    exists k :: 0 <= k < |u.conditions| && Reaches(j, u, payload, k) && VerdictOf(j, u.conditions[k], payload).Throws?
  }

  /** How many units of a list are evaluated before one throws. */
  function Evaluated(j: Judge, us: seq<Unit>, payload: Json): (n: nat)
    ensures n <= |us|
    ensures n < |us| ==> Raises(j, us[n], payload)
    ensures forall i :: 0 <= i < n ==> !Raises(j, us[i], payload)
  {
    if us == [] then 0
    else
      var n := Evaluated(j, us[..|us| - 1], payload);
      if n == |us| - 1 && !Raises(j, us[n], payload) then |us| else n
  }

  /** Where in a list the units stand that pass. */
  function Chosen(j: Judge, us: seq<Unit>, payload: Json): (at: seq<nat>)
    ensures forall a :: 0 <= a < |at| ==> at[a] < |us|
  {
    if us == [] then []
    else Chosen(j, us[..|us| - 1], payload) + (if Passes(j, us[|us| - 1], payload) then [|us| - 1] else [])
  }

  ghost predicate ById(units: map<string, Unit>) {
    forall id <- units :: units[id].id == id
  }

  /** `us` are the active units with the event's trigger, each once. */
  ghost predicate AreTriggered(units: map<string, Unit>, event: Event, us: seq<Unit>) {
    && (forall i :: 0 <= i < |us| ==> us[i].id in units && units[us[i].id] == us[i] && Triggered(us[i], event))
    && (forall i, j :: 0 <= i < j < |us| ==> us[i].id != us[j].id)
    && (forall id <- units :: Triggered(units[id], event) ==> exists i :: 0 <= i < |us| && us[i].id == id)
  }

  /** createRun */
  function CreateRun(u: Unit, event: Event, id: string, now: nat): Run {
    Run(id, u.id, event.id, event.userId, Pending, 0, map["payload" := event.payload], now, None, None, None)
  }

  /** One run for each unit that passes, in order, as far as the units are evaluated. */
  ghost predicate AreRunsFor(j: Judge, us: seq<Unit>, event: Event, ids: nat -> string, now: nat, runs: seq<Run>) {
    SoFar(j, us, Evaluated(j, us, event.payload), event, ids, now, runs)
  }

  /** A table with new rows for these runs. */
  function WithRows(rows: map<string, Row>, payload: Json, runs: seq<Run>): map<string, Row> {
    if runs == [] then rows
    else WithRows(rows, payload, runs[..|runs| - 1])[runs[|runs| - 1].id := Row(runs[|runs| - 1], IfTruthy(Some(payload)))]
  }

  /** A supply of new ids. */
  ghost predicate Unused(ids: nat -> string, rows: map<string, Row>) {
    (forall i, j: nat :: i != j ==> ids(i) != ids(j)) && forall i: nat :: ids(i) !in rows
  }

  /** What `match` comes back with. */
  datatype Outcome = Matched(runs: seq<Run>) | Interrupted(error: string)

  class Matcher {
    const store: HybridStore
    const judge: Judge

    constructor (store: HybridStore, judge: Judge)
      ensures this.store == store && this.judge == judge
    {
      this.store, this.judge := store, judge;
    }

    /** The active units with this trigger, each once, in any order. */
    method UnitsByTrigger(event: Event) returns (us: seq<Unit>)
      requires ById(store.units)
      ensures AreTriggered(store.units, event, us)
    {
      us := [];
      var ids := set id | id in store.units && Triggered(store.units[id], event);
      ghost var all := ids;
      while ids != {}
        invariant ids <= all
        invariant forall i :: 0 <= i < |us| ==> us[i].id in all && us[i].id !in ids && store.units[us[i].id] == us[i]
        invariant forall i, j :: 0 <= i < j < |us| ==> us[i].id != us[j].id
        invariant forall id <- all :: id in ids || exists i :: 0 <= i < |us| && us[i].id == id
        decreases |ids|
      {
        var id :| id in ids;
        ghost var before := us;
        us := us + [store.units[id]];
        ids := ids - {id};
        assert us[|us| - 1].id == id;
        assert forall i :: 0 <= i < |before| ==> us[i] == before[i];
      }
      forall id | id in store.units && Triggered(store.units[id], event) ensures exists i :: 0 <= i < |us| && us[i].id == id {
        assert id in all;
      }
    }

    /** evaluate: it throws exactly if a condition it gets to throws; otherwise it says whether the
        unit passes. */
    method Evaluate(u: Unit, payload: Json) returns (verdict: Verdict)
      ensures verdict.Throws? <==> Raises(judge, u, payload)
      ensures verdict.Answers? ==> verdict.yes == Passes(judge, u, payload)
    {
      if u.filter.Some? && u.filter.value != "" {
        if !judge.expression(u.filter.value, payload) { return Answers(false); }
      }
      for k := 0 to |u.conditions|
        invariant Reaches(judge, u, payload, k)
      {
        verdict := VerdictOf(judge, u.conditions[k], payload);
        if verdict != Answers(true) { return; }
      }
      verdict := Answers(true);
    }

    method SaveNew(run: Run, payload: Json)
      requires run.id !in store.runs && run.error.None?
      modifies store`runs, store`waiting
      ensures store.runs == old(store.runs)[run.id := Row(run, IfTruthy(Some(payload)))]
    {
      ghost var before := store.View();
      store.SaveRun(run, Some(payload));
      assert store.View() == Saved(before, run, Some(payload));
    }

    /** match: each unit that passes gets a run, saved pending with the event's payload as context
        and as payload column (kept only if truthy), until a unit throws. Then the units after it are
        not evaluated, and the runs saved so far stay but are not returned. No other row changes.
        `ids` supplies unused run ids; `us` are the triggered units, `saved` the runs saved. */
    method Match(event: Event, ids: nat -> string, now: nat) returns (o: Outcome, ghost us: seq<Unit>, ghost saved: seq<Run>)
      requires ById(store.units)
      requires Unused(ids, store.runs)
      modifies store`runs, store`waiting
      ensures AreTriggered(store.units, event, us)
      ensures AreRunsFor(judge, us, event, ids, now, saved)
      ensures store.runs == WithRows(old(store.runs), event.payload, saved)
      ensures if Evaluated(judge, us, event.payload) < |us| then o.Interrupted? else o == Matched(saved)
    {
      var found := UnitsByTrigger(event);
      us := found;
      var runs := [];
      saved := [];
      assert SoFar(judge, found, 0, event, ids, now, []);
      ghost var rows := store.runs;
      assert WithRows(rows, event.payload, []) == rows;
      hide Passes, Raises, NoneRaises, SoFar, WithRows, CreateRun, ById, AreTriggered, Unused, AreRunsFor, Evaluated;
      for k := 0 to |found|
        invariant saved == runs && us == found
        invariant NoneRaises(judge, found[..k], event.payload)
        invariant SoFar(judge, found, k, event, ids, now, runs)
        invariant store.runs == WithRows(rows, event.payload, runs)
      {
        var verdict := Evaluate(found[k], event.payload);
        if verdict.Throws? {
          Interrupts(judge, found, event, ids, now, runs, k);
          return Interrupted(verdict.error), us, saved;
        }
        SoFarSnoc(judge, found, event, ids, now, runs, k);
        NoneRaisesSnoc(judge, found, event.payload, k);
        if verdict.yes {
          var run := CreateRun(found[k], event, ids(|runs|), now);
          RunIsNew(judge, found, k, event, ids, now, runs, rows, run, found[k]);
          SaveNew(run, event.payload);
          runs := runs + [run];
          saved := runs;
        }
      }
      assert found[..|found|] == found;
      Finishes(judge, found, event, ids, now, runs);
      o := Matched(runs);
    }
  }

  /** The runs are those of the units at these places, in order. */
  ghost predicate RunsAt(us: seq<Unit>, at: seq<nat>, event: Event, ids: nat -> string, now: nat, runs: seq<Run>) {
    |runs| == |at| && forall a :: 0 <= a < |at| ==> at[a] < |us| && runs[a] == CreateRun(us[at[a]], event, ids(a), now)
  }

  lemma RunsAtMore(us: seq<Unit>, at: seq<nat>, k: nat, event: Event, ids: nat -> string, now: nat, runs: seq<Run>)
    requires RunsAt(us, at, event, ids, now, runs) && k < |us|
    ensures RunsAt(us, at + [k], event, ids, now, runs + [CreateRun(us[k], event, ids(|runs|), now)])
  {
    hide CreateRun;
  }

  /** `runs` are those for the first `k` units. */
  ghost predicate SoFar(j: Judge, us: seq<Unit>, k: nat, event: Event, ids: nat -> string, now: nat, runs: seq<Run>) {
    k <= |us| && RunsAt(us, Chosen(j, us[..k], event.payload), event, ids, now, runs)
  }

  lemma SoFarSnoc(j: Judge, us: seq<Unit>, event: Event, ids: nat -> string, now: nat, runs: seq<Run>, k: nat)
    requires k < |us| && SoFar(j, us, k, event, ids, now, runs)
    ensures
      var runs' := if Passes(j, us[k], event.payload) then runs + [CreateRun(us[k], event, ids(|runs|), now)] else runs;
      SoFar(j, us, k + 1, event, ids, now, runs')
  {
    hide Passes, Chosen, CreateRun, RunsAt;
    ChosenSnoc(j, us, event.payload, k);
    var at := Chosen(j, us[..k], event.payload);
    assert at + [] == at;
    if Passes(j, us[k], event.payload) { RunsAtMore(us, at, k, event, ids, now, runs); }
  }

  lemma ChosenSnoc(j: Judge, us: seq<Unit>, payload: Json, k: nat)
    requires k < |us|
    ensures Chosen(j, us[..k + 1], payload) == Chosen(j, us[..k], payload) + (if Passes(j, us[k], payload) then [k] else [])
  {
    hide Passes;
    assert us[..k + 1][..k] == us[..k];
  }

  lemma RunIsNew(j: Judge, us: seq<Unit>, k: nat, event: Event, ids: nat -> string, now: nat, runs: seq<Run>, rows: map<string, Row>, run: Run, u: Unit)
    requires SoFar(j, us, k, event, ids, now, runs) && run == CreateRun(u, event, ids(|runs|), now)
    requires Unused(ids, rows)
    ensures run.error.None? && run.id !in WithRows(rows, event.payload, runs)
    ensures WithRows(rows, event.payload, runs + [run]) ==
              WithRows(rows, event.payload, runs)[run.id := Row(run, IfTruthy(Some(event.payload)))]
  {
    RowsOfRuns(rows, event.payload, runs, run.id);
    assert (runs + [run])[..|runs|] == runs;
  }

  /** A row of the new table is one of the new ones or an old one. */
  lemma {:induction false} RowsOfRuns(rows: map<string, Row>, payload: Json, runs: seq<Run>, id: string)
    ensures id in WithRows(rows, payload, runs) <==> id in rows || exists a :: 0 <= a < |runs| && runs[a].id == id
    ensures (forall a :: 0 <= a < |runs| ==> runs[a].id != id) && id in rows ==> WithRows(rows, payload, runs)[id] == rows[id]
  {
    if runs == [] {
    } else {
      var front := runs[..|runs| - 1];
      RowsOfRuns(rows, payload, front, id);
      assert forall a :: 0 <= a < |front| ==> front[a] == runs[a];
    }
  }

  ghost predicate NoneRaises(j: Judge, us: seq<Unit>, payload: Json) {
    forall i :: 0 <= i < |us| ==> !Raises(j, us[i], payload)
  }

  lemma NoneRaisesSnoc(j: Judge, us: seq<Unit>, payload: Json, k: nat)
    requires k < |us| && NoneRaises(j, us[..k], payload) && !Raises(j, us[k], payload)
    ensures NoneRaises(j, us[..k + 1], payload)
  {
    hide Raises;
    forall i | 0 <= i < k ensures !Raises(j, us[i], payload) { assert us[..k][i] == us[i]; }
  }

  lemma Interrupts(j: Judge, us: seq<Unit>, event: Event, ids: nat -> string, now: nat, runs: seq<Run>, k: nat)
    requires k < |us| && NoneRaises(j, us[..k], event.payload) && Raises(j, us[k], event.payload)
    requires SoFar(j, us, k, event, ids, now, runs)
    ensures Evaluated(j, us, event.payload) == k && AreRunsFor(j, us, event, ids, now, runs)
  {
    hide Raises, SoFar;
    var n := Evaluated(j, us, event.payload);
    forall i | 0 <= i < k ensures !Raises(j, us[i], event.payload) { assert us[..k][i] == us[i]; }
    assert n == k;
  }

  lemma Finishes(j: Judge, us: seq<Unit>, event: Event, ids: nat -> string, now: nat, runs: seq<Run>)
    requires NoneRaises(j, us, event.payload) && SoFar(j, us, |us|, event, ids, now, runs)
    ensures Evaluated(j, us, event.payload) == |us| && AreRunsFor(j, us, event, ids, now, runs)
  {
    hide Raises, SoFar;
    assert us[..|us|] == us;
  }

  // ---- Which units get a run ----------------------------------------------------------------------

  ghost predicate Increasing(at: seq<nat>) {
    forall a, b :: 0 <= a < b < |at| ==> at[a] < at[b]
  }

  lemma {:induction false} ChosenIncreasing(j: Judge, us: seq<Unit>, payload: Json)
    ensures Increasing(Chosen(j, us, payload))
  {
    if us == [] {
    } else {
      ChosenIncreasing(j, us[..|us| - 1], payload);
    }
  }

  lemma {:induction false} ChosenPass(j: Judge, us: seq<Unit>, payload: Json, a: nat)
    requires a < |Chosen(j, us, payload)|
    ensures Passes(j, us[Chosen(j, us, payload)[a]], payload)
  {
    var front := us[..|us| - 1];
    if a < |Chosen(j, front, payload)| {
      ChosenPass(j, front, payload, a);
    }
  }

  lemma {:induction false} PassingChosen(j: Judge, us: seq<Unit>, payload: Json, i: nat) returns (a: nat)
    requires i < |us| && Passes(j, us[i], payload)
    ensures a < |Chosen(j, us, payload)| && Chosen(j, us, payload)[a] == i
  {
    var front := us[..|us| - 1];
    if i == |us| - 1 {
      a := |Chosen(j, front, payload)|;
    } else {
      a := PassingChosen(j, front, payload, i);
    }
  }

  ghost predicate HasRun(runs: seq<Run>, unitId: string) {
    exists a :: 0 <= a < |runs| && runs[a].unitId == unitId
  }

  lemma RunsUpToThrowAt(j: Judge, units: map<string, Unit>, event: Event, us: seq<Unit>, ids: nat -> string, now: nat, runs: seq<Run>, i: nat)
    requires AreTriggered(units, event, us) && AreRunsFor(j, us, event, ids, now, runs) && i < |us|
    ensures HasRun(runs, us[i].id) <==> i < Evaluated(j, us, event.payload) && Passes(j, us[i], event.payload)
  {
    hide Passes, Raises, Chosen;
    var head := us[..Evaluated(j, us, event.payload)];
    var at := Chosen(j, head, event.payload);
    if i < |head| && Passes(j, us[i], event.payload) {
      var a := PassingChosen(j, head, event.payload, i);
      assert runs[a].unitId == us[i].id;
    }
    if HasRun(runs, us[i].id) {
      var a :| 0 <= a < |runs| && runs[a].unitId == us[i].id;
      assert us[at[a]].id == us[i].id;
      ChosenPass(j, head, event.payload, a);
    }
  }

  /** Exactly which units a match saved a run for, each once: those that pass among the triggered
      ones before the first that throws. */
  lemma RunsUpToThrow(j: Judge, units: map<string, Unit>, event: Event, us: seq<Unit>, ids: nat -> string, now: nat, runs: seq<Run>)
    requires AreTriggered(units, event, us) && AreRunsFor(j, us, event, ids, now, runs)
    ensures forall a, b :: 0 <= a < b < |runs| ==> runs[a].unitId != runs[b].unitId
    ensures forall i :: 0 <= i < |us| ==>
              (HasRun(runs, us[i].id) <==> i < Evaluated(j, us, event.payload) && Passes(j, us[i], event.payload))
    ensures forall id :: HasRun(runs, id) ==> exists i :: 0 <= i < |us| && us[i].id == id
  {
    hide Passes, Raises, Chosen;
    var n := Evaluated(j, us, event.payload);
    var head := us[..n];
    var at := Chosen(j, head, event.payload);
    ChosenIncreasing(j, head, event.payload);
    forall i | 0 <= i < |us|
      ensures HasRun(runs, us[i].id) <==> i < n && Passes(j, us[i], event.payload)
    {
      RunsUpToThrowAt(j, units, event, us, ids, now, runs, i);
    }
    forall id | HasRun(runs, id) ensures exists i :: 0 <= i < |us| && us[i].id == id {
      var a :| 0 <= a < |runs| && runs[a].unitId == id;
      assert us[at[a]].id == id;
    }
  }

  /** The unit is active, has the event's source and name as trigger, its filter, if it has one, holds
      of the payload, and so does every condition: an expression, or what the model answers. */
  ghost predicate Wanted(j: Judge, u: Unit, event: Event) {
    u.status == Active && u.source == event.source && u.event == event.event &&
    (u.filter.None? || u.filter.value == "" || j.expression(u.filter.value, event.payload)) &&
    forall c <- u.conditions ::
      match c
      case Eval(expr) => j.expression(expr, event.payload)
      case Semantic(_, _, _) => j.semantic(c, event.payload) == Answers(true)
      case OtherCondition(_) => true
  }

  lemma WantedMeans(j: Judge, u: Unit, event: Event)
    ensures Wanted(j, u, event) <==> Triggered(u, event) && Passes(j, u, event.payload)
  {
    forall i | 0 <= i < |u.conditions| ensures u.conditions[i] in u.conditions {
    }
  }

  /** What match returns when it returns: exactly one run for each active unit with the event's
      trigger that passes its filter and conditions, and none for any other. */
  lemma OneRunPerUnit(j: Judge, units: map<string, Unit>, event: Event, us: seq<Unit>, ids: nat -> string, now: nat, runs: seq<Run>)
    requires AreTriggered(units, event, us) && AreRunsFor(j, us, event, ids, now, runs)
    requires Evaluated(j, us, event.payload) == |us|
    ensures forall a, b :: 0 <= a < b < |runs| ==> runs[a].unitId != runs[b].unitId
    ensures forall id :: HasRun(runs, id) <==> id in units && units[id].id == id && Wanted(j, units[id], event)
  {
    forall u: Unit ensures Wanted(j, u, event) <==> Triggered(u, event) && Passes(j, u, event.payload) {
      WantedMeans(j, u, event);
    }
    hide Passes, Raises, Chosen, Wanted, Triggered;
    RunsUpToThrow(j, units, event, us, ids, now, runs);
    forall id
      ensures HasRun(runs, id) <==> id in units && units[id].id == id && Wanted(j, units[id], event)
    {
      if HasRun(runs, id) || (id in units && units[id].id == id && Triggered(units[id], event)) {
        var i :| 0 <= i < |us| && us[i].id == id;
      }
    }
  }
}
