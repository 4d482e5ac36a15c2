/** Webhooks on their way to becoming runs: the five-minute window of the event shaper
    (src/cortex/event-shaper.ts, handleWebhook) in front of the seven-day event keys of the store
    (src/cortex/store.ts, writeEvent). Webhooks are processed one after another. */
module Ingest {
  import opened Wrappers
  import opened Json
  import opened Automation
  import opened Store
  import opened Matching

  const WINDOW_MS: nat := 300 * 1000

  /** A webhook and the times at which its processing reads the window, writes the event, and sets
      the window. `owner` is the user found for the connection. */
  datatype Hook = Hook(connectionId: string, model: string, syncName: Option<string>, added: int, updated: int, owner: Option<string>,
                       read: nat, written: nat, done: nat)

  function WindowKey(h: Hook): string {
    "webhook:" + h.connectionId + ":" + h.model
  }

  function DedupeKey(h: Hook): string {
    h.connectionId + "_" + h.model
  }

  function SourceOf(model: string): string {
    if "Gmail" <= model then "gmail"
    else if "Calendar" <= model then "google-calendar"
    else if "Salesforce" <= model then "salesforce"
    else "gmail"
  }

  function SyncEvent(h: Hook, id: string): Event {
    Event(id, SourceOf(h.model), "sync_completed", if h.owner.Some? then h.owner.value else "",
          Obj(map["connectionId" := Str(h.connectionId), "model" := Str(h.model),
                  "addedCount" := Num(h.added as real), "updatedCount" := Num(h.updated as real)]
              + if h.syncName.Some? then map["syncName" := Str(h.syncName.value)] else map[]),
          Some(DedupeKey(h)))
  }

  /** The two kinds of keys, with the instants at which they expire. */
  datatype Gate = Gate(windows: map<string, nat>, dedupe: map<string, nat>)

  /** The shaper emits a sync event for this webhook. */
  predicate Emits(g: Gate, h: Hook) {
    !KeyLive(g.windows, WindowKey(h), h.read) && h.owner.Some? && h.owner.value != "" && h.added + h.updated != 0
  }

  /** The event is new to the store, so units are matched against it. */
  predicate Accepts(g: Gate, h: Hook) {
    Emits(g, h) && !KeyLive(g.dedupe, DedupeKey(h), h.written)
  }

  function Handled(g: Gate, h: Hook): Gate {
    if !Emits(g, h) then g
    else Gate(g.windows[WindowKey(h) := h.done + WINDOW_MS],
              if Accepts(g, h) then g.dedupe[DedupeKey(h) := h.written + DEDUPE_MS] else g.dedupe)
  }

  class EventShaper {
    const store: HybridStore
    var windows: map<string, nat>

    constructor (store: HybridStore)
      ensures this.store == store && windows == map[]
    {
      this.store, windows := store, map[];
    }

    /** handleWebhook with processCortexEvent as its sink, up to matching. The window is set whether
        or not the store already knew the event. */
    method HandleWebhook(h: Hook, id: string) returns (processed: nat, accepted: bool)
      modifies this, store`dedupe, store`published
      ensures
        var g := Gate(old(windows), old(store.dedupe));
        Gate(windows, store.dedupe) == Handled(g, h) &&
        processed == (if Emits(g, h) then 1 else 0) && accepted == Accepts(g, h) &&
        store.published == (if accepted then old(store.published) + [SyncEvent(h, id)] else old(store.published))
    {
      if KeyLive(windows, WindowKey(h), h.read) { return 0, false; }
      if h.owner.None? || h.owner.value == "" { return 0, false; }
      if h.added + h.updated == 0 { return 0, false; }
      KeyNonEmpty(h);
      accepted := store.WriteEvent(SyncEvent(h, id), h.written);
      windows := windows[WindowKey(h) := h.done + WINDOW_MS];
      processed := 1;
    }
  }

  lemma KeyNonEmpty(h: Hook)
    ensures DedupeKey(h) != ""
  {
    assert |DedupeKey(h)| == |h.connectionId| + 1 + |h.model|;
  }

  // ---- Spacing ------------------------------------------------------------------------------------

  /** The keys after a list of webhooks. */
  function After(hs: seq<Hook>): Gate {
    if hs == [] then Gate(map[], map[]) else Handled(After(hs[..|hs| - 1]), hs[|hs| - 1])
  }

  /** One webhook at a time. */
  ghost predicate Sequential(hs: seq<Hook>) {
    (forall i :: 0 <= i < |hs| ==> hs[i].read <= hs[i].written <= hs[i].done) &&
    (forall i, j :: 0 <= i < j < |hs| ==> hs[i].done <= hs[j].read)
  }

  predicate EmittedAt(hs: seq<Hook>, i: nat)
    requires i < |hs|
  {
    Emits(After(hs[..i]), hs[i])
  }

  predicate AcceptedAt(hs: seq<Hook>, i: nat)
    requires i < |hs|
  {
    Accepts(After(hs[..i]), hs[i])
  }

  /** A key says until when: the latest emission under a window key, the latest acceptance under a
      dedupe key, each from a webhook already seen. */
  lemma {:induction false} KeysRemember(hs: seq<Hook>, i: nat)
    requires Sequential(hs) && i < |hs|
    ensures EmittedAt(hs, i) ==>
              WindowKey(hs[i]) in After(hs).windows && hs[i].done + WINDOW_MS <= After(hs).windows[WindowKey(hs[i])]
    ensures AcceptedAt(hs, i) ==>
              DedupeKey(hs[i]) in After(hs).dedupe && hs[i].written + DEDUPE_MS <= After(hs).dedupe[DedupeKey(hs[i])]
  {
    var front, last := hs[..|hs| - 1], |hs| - 1;
    if i < last {
      assert front[..i] == hs[..i] && front[i] == hs[i];
      KeysRemember(front, i);
      assert hs[i].done <= hs[last].read;
    } else {
      assert hs[..i] == front;
    }
  }

  /** Layered dedupe: of two webhooks, the later one's event can be emitted only five minutes after
      the earlier one, if emitted, was done, when both are for one connection and model; and it can
      be accepted only seven days after the earlier one, if accepted under the same key. */
  lemma Spacing(hs: seq<Hook>, i: nat, j: nat)
    requires Sequential(hs) && i < j < |hs|
    ensures EmittedAt(hs, i) && EmittedAt(hs, j) && hs[i].connectionId == hs[j].connectionId && hs[i].model == hs[j].model ==>
              hs[i].done + 300_000 <= hs[j].read
    ensures AcceptedAt(hs, i) && AcceptedAt(hs, j) && DedupeKey(hs[i]) == DedupeKey(hs[j]) ==>
              hs[i].written + 604_800_000 <= hs[j].written
  {
    var before := hs[..j];
    assert before[i] == hs[i] && before[..i] == hs[..i];
    KeysRemember(before, i);
  }

  /** Exactly when a webhook with changes and an owner is emitted: no emission under its window key
      in the five minutes before. */
  lemma EmittedExactly(hs: seq<Hook>, j: nat)
    requires Sequential(hs) && j < |hs|
    requires hs[j].owner.Some? && hs[j].owner.value != "" && hs[j].added + hs[j].updated != 0
    ensures EmittedAt(hs, j) <==>
              forall i :: 0 <= i < j && EmittedAt(hs, i) && WindowKey(hs[i]) == WindowKey(hs[j]) ==> hs[i].done + 300_000 <= hs[j].read
  {
    var before, g := hs[..j], After(hs[..j]);
    if EmittedAt(hs, j) {
      forall i | 0 <= i < j && EmittedAt(hs, i) && WindowKey(hs[i]) == WindowKey(hs[j]) ensures hs[i].done + WINDOW_MS <= hs[j].read {
        assert before[i] == hs[i] && before[..i] == hs[..i];
        KeysRemember(before, i);
      }
    } else {
      var i := WindowSetBy(before, WindowKey(hs[j]));
      assert before[i] == hs[i] && before[..i] == hs[..i];
    }
  }

  /** A webhook without an owner or without changes is never emitted. */
  lemma NothingToEmit(hs: seq<Hook>, j: nat)
    requires j < |hs| && (hs[j].owner.None? || hs[j].owner == Some("") || hs[j].added + hs[j].updated == 0)
    ensures !EmittedAt(hs, j)
  {
  }

  /** Exactly when an emitted event is accepted: none was under its key in the seven days before. */
  lemma AcceptedExactly(hs: seq<Hook>, j: nat)
    requires Sequential(hs) && j < |hs| && EmittedAt(hs, j)
    ensures AcceptedAt(hs, j) <==>
              forall i :: 0 <= i < j && AcceptedAt(hs, i) && DedupeKey(hs[i]) == DedupeKey(hs[j]) ==>
                hs[i].written + 604_800_000 <= hs[j].written
  {
    var before := hs[..j];
    hide Handled, After, Emits, Sequential, WindowKey, DedupeKey;
    if AcceptedAt(hs, j) {
      forall i | 0 <= i < j && AcceptedAt(hs, i) && DedupeKey(hs[i]) == DedupeKey(hs[j]) ensures hs[i].written + 604_800_000 <= hs[j].written {
        Spacing(hs, i, j);
      }
    } else {
      var i := KeySetBy(before, DedupeKey(hs[j]));
      assert before[i] == hs[i] && before[..i] == hs[..i];
    }
  }

  lemma {:induction false} KeySetBy(hs: seq<Hook>, key: string) returns (i: nat)
    requires key in After(hs).dedupe
    ensures i < |hs| && AcceptedAt(hs, i) && DedupeKey(hs[i]) == key && After(hs).dedupe[key] == hs[i].written + DEDUPE_MS
  {
    var front, last := hs[..|hs| - 1], |hs| - 1;
    if Accepts(After(front), hs[last]) && DedupeKey(hs[last]) == key {
      i := last;
    } else {
      i := KeySetBy(front, key);
      assert front[..i] == hs[..i] && front[i] == hs[i];
    }
  }

  /** What the event says: where it comes from, by the model's name, whose it is, and the counts. */
  lemma EventMeans(h: Hook, id: string, rest: string)
    requires h.owner.Some?
    ensures
      var e := SyncEvent(h, id);
      e.id == id && e.event == "sync_completed" && e.userId == h.owner.value && e.dedupeKey == Some(h.connectionId + "_" + h.model) &&
      (h.model == "Calendar" + rest ==> e.source == "google-calendar") &&
      (h.model == "Salesforce" + rest ==> e.source == "salesforce") &&
      (h.model == "Gmail" + rest ==> e.source == "gmail") &&
      (h.model != "" && h.model[0] !in "CS" ==> e.source == "gmail") &&
      IsAt(e.payload, ["connectionId"], Str(h.connectionId)) && IsAt(e.payload, ["model"], Str(h.model)) &&
      IsAt(e.payload, ["addedCount"], Num(h.added as real)) && IsAt(e.payload, ["updatedCount"], Num(h.updated as real)) &&
      (h.syncName.Some? ==> IsAt(e.payload, ["syncName"], Str(h.syncName.value))) &&
      (h.syncName.None? ==> forall x :: !IsAt(e.payload, ["syncName"], x))
  {
    ModelPrefix(h.model, rest);
    var fields := SyncEvent(h, id).payload.fields;
    AtField(fields, "connectionId", Str(h.connectionId));
    AtField(fields, "model", Str(h.model));
    AtField(fields, "addedCount", Num(h.added as real));
    AtField(fields, "updatedCount", Num(h.updated as real));
    hide SourceOf, IsAt;
    if h.syncName.Some? { AtField(fields, "syncName", Str(h.syncName.value)); }
    forall x ensures IsAt(Obj(fields), ["syncName"], x) <==> "syncName" in fields && x == fields["syncName"] {
      AtField(fields, "syncName", x);
    }
  }

  lemma ModelPrefix(model: string, rest: string)
    ensures model == "Calendar" + rest ==> SourceOf(model) == "google-calendar"
    ensures model == "Salesforce" + rest ==> SourceOf(model) == "salesforce"
    ensures model == "Gmail" + rest ==> SourceOf(model) == "gmail"
    ensures model != "" && model[0] !in "CS" ==> SourceOf(model) == "gmail"
  {
    assert model == "Calendar" + rest ==> model[0] == 'C';
    assert model == "Salesforce" + rest ==> model[0] == 'S';
    assert "Gmail" <= model ==> model[0] == "Gmail"[0];
    assert "Calendar" <= model ==> model[0] == "Calendar"[0];
    assert "Salesforce" <= model ==> model[0] == "Salesforce"[0];
  }

  lemma {:induction false} WindowSetBy(hs: seq<Hook>, key: string) returns (i: nat)
    requires key in After(hs).windows
    ensures i < |hs| && EmittedAt(hs, i) && WindowKey(hs[i]) == key && After(hs).windows[key] == hs[i].done + WINDOW_MS
  {
    var front, last := hs[..|hs| - 1], |hs| - 1;
    if Emits(After(front), hs[last]) && WindowKey(hs[last]) == key {
      i := last;
    } else {
      i := WindowSetBy(front, key);
      assert front[..i] == hs[..i] && front[i] == hs[i];
    }
  }

  /** In any seven days at most one event is accepted under a key, so no unit is matched, and no run
      of it started, twice for the key. */
  lemma OncePerSevenDays(hs: seq<Hook>, from: nat, i: nat, j: nat)
    requires Sequential(hs) && i < |hs| && j < |hs| && AcceptedAt(hs, i) && AcceptedAt(hs, j)
    requires DedupeKey(hs[i]) == DedupeKey(hs[j])
    requires from <= hs[i].written < from + DEDUPE_MS && from <= hs[j].written < from + DEDUPE_MS
    ensures i == j
  {
    if i < j { Spacing(hs, i, j); }
    if j < i { Spacing(hs, j, i); }
  }

  /** What came of a webhook: the units at that time, those triggered, and the runs saved. */
  datatype Dispatch = Dispatch(eventId: string, units: map<string, Unit>, us: seq<Unit>, ids: nat -> string, runs: seq<Run>)

  /** Only an accepted event is matched, with the result `Match` promises. */
  ghost predicate Dispatched(j: Judge, h: Hook, accepted: bool, d: Dispatch) {
    var event := SyncEvent(h, d.eventId);
    if accepted then AreTriggered(d.units, event, d.us) && AreRunsFor(j, d.us, event, d.ids, h.written, d.runs)
    else d.runs == []
  }

  /** Hence two runs of one unit that events of one key left within seven days are the same run. */
  lemma OneRunPerUnitAndKey(judge: Judge, hs: seq<Hook>, ds: seq<Dispatch>, from: nat, i: nat, a: nat, j: nat, b: nat)
    requires Sequential(hs) && |ds| == |hs| && i < |hs| && j < |hs|
    requires forall k: nat :: k < |hs| ==> Dispatched(judge, hs[k], AcceptedAt(hs, k), ds[k])
    requires a < |ds[i].runs| && b < |ds[j].runs| && ds[i].runs[a].unitId == ds[j].runs[b].unitId
    requires DedupeKey(hs[i]) == DedupeKey(hs[j])
    requires from <= hs[i].written < from + DEDUPE_MS && from <= hs[j].written < from + DEDUPE_MS
    ensures i == j && a == b
  {
    hide AreRunsFor, AreTriggered;
    assert Dispatched(judge, hs[i], AcceptedAt(hs, i), ds[i]) && Dispatched(judge, hs[j], AcceptedAt(hs, j), ds[j]);
    OncePerSevenDays(hs, from, i, j);
    var d, event := ds[i], SyncEvent(hs[i], ds[i].eventId);
    RunsUpToThrow(judge, d.units, event, d.us, d.ids, hs[i].written, d.runs);
  }

  // ---- An event on its way to runs ------------------------------------------------------------------

  class Processor {
    const store: HybridStore
    const matcher: Matcher

    constructor (store: HybridStore, matcher: Matcher)
      requires matcher.store == store
      ensures this.store == store && this.matcher == matcher
    {
      this.store, this.matcher := store, matcher;
    }

    /** processCortexEvent, up to the executions: `started` are the runs it hands to execute. The
        key of a new event is taken before the units are matched, and stays taken if a unit throws. */
    method ProcessCortexEvent(event: Event, ids: nat -> string, now: nat)
      returns (started: seq<Run>, ghost us: seq<Unit>, ghost saved: seq<Run>)
      requires matcher.store == store && ById(store.units) && Unused(ids, store.runs)
      modifies store`dedupe, store`published, store`runs, store`waiting
      ensures
        var key := event.dedupeKey;
        var keyed := key.Some? && key.value != "";
        if keyed && KeyLive(old(store.dedupe), key.value, now)
        then started == saved == [] && store.runs == old(store.runs)
        else
          (keyed ==> KeyLive(store.dedupe, key.value, now)) &&
          AreTriggered(store.units, event, us) && AreRunsFor(matcher.judge, us, event, ids, now, saved) &&
          store.runs == WithRows(old(store.runs), event.payload, saved) &&
          started == if Evaluated(matcher.judge, us, event.payload) == |us| then saved else []
    {
      hide AreTriggered, AreRunsFor, WithRows, Unused, ById, Evaluated;
      us, saved := [], [];
      var written := store.WriteEvent(event, now);
      if !written { return [], us, saved; }
      var o;
      o, us, saved := matcher.Match(event, ids, now);
      match o {
      case Matched(runs) => started := runs;
      case Interrupted(_) => started := [];
      }
    }
  }

  /** What an interrupted match leaves behind: the passing units before the one that throws keep a saved
      run, pending (for good, as `Delivery.NeverStarted` says), every other unit gets none, and for the
      next seven days the same key is refused, so a retry does not help. */
  lemma InterruptedMatch(j: Judge, units: map<string, Unit>, event: Event, us: seq<Unit>, ids: nat -> string, now: nat,
                         saved: seq<Run>, dedupe: map<string, nat>, rows: map<string, Row>, later: nat)
    requires AreTriggered(units, event, us) && AreRunsFor(j, us, event, ids, now, saved)
    requires Unused(ids, rows) && Evaluated(j, us, event.payload) < |us|
    requires event.dedupeKey.Some? && event.dedupeKey.value != "" && now <= later < now + DEDUPE_MS
    ensures
      var n, after := Evaluated(j, us, event.payload), WithRows(rows, event.payload, saved);
      && Raises(j, us[n], event.payload)
      && (forall i :: 0 <= i < |us| ==> (HasRun(saved, us[i].id) <==> i < n && Passes(j, us[i], event.payload)))
      && (forall a :: 0 <= a < |saved| ==> saved[a].id in after && after[saved[a].id].run.status == Pending)
      && KeyLive(dedupe[event.dedupeKey.value := now + DEDUPE_MS], event.dedupeKey.value, later)
  {
    hide Raises, Passes;
    RunsUpToThrow(j, units, event, us, ids, now, saved);
    forall a | 0 <= a < |saved| ensures
      var after := WithRows(rows, event.payload, saved);
      saved[a].id in after && after[saved[a].id].run.status == Pending
    {
      PendingRow(rows, event.payload, saved, a);
    }
  }

  lemma {:induction false} PendingRow(rows: map<string, Row>, payload: Json, runs: seq<Run>, a: nat)
    requires a < |runs| && forall b :: 0 <= b < |runs| ==> runs[b].status == Pending
    ensures runs[a].id in WithRows(rows, payload, runs)
    ensures WithRows(rows, payload, runs)[runs[a].id].run.status == Pending
  {
    if a == |runs| - 1 {
    } else {
      PendingRow(rows, payload, runs[..|runs| - 1], a);
    }
  }

  /** Exactly when two webhooks share an event key: they are for the same connection and model, or
      one's connection goes on after an underscore with the beginning of the other's model. */
  lemma KeysCollideExactly(a: Hook, b: Hook)
    requires |a.connectionId| <= |b.connectionId|
    ensures
      DedupeKey(a) == DedupeKey(b) <==>
        (a.connectionId == b.connectionId && a.model == b.model) ||
        exists rest :: b.connectionId == a.connectionId + "_" + rest && a.model == rest + "_" + b.model
  {
    var n, m := |a.connectionId|, |b.connectionId|;
    if DedupeKey(a) == DedupeKey(b) {
      var key := DedupeKey(a);
      assert key == b.connectionId + "_" + b.model;
      assert a.connectionId == key[..n] && b.connectionId == key[..m] && key[n] == '_' == key[m];
      assert a.model == key[n + 1..] && b.model == key[m + 1..];
      if n < m {
        var rest := key[n + 1..m];
        assert b.connectionId == a.connectionId + "_" + rest && a.model == rest + "_" + b.model;
      } else {
        assert a.model == b.model;
      }
    }
    forall rest | b.connectionId == a.connectionId + "_" + rest && a.model == rest + "_" + b.model
      ensures DedupeKey(a) == DedupeKey(b)
    {
      assert DedupeKey(a) == a.connectionId + "_" + (rest + "_" + b.model);
      assert DedupeKey(b) == (a.connectionId + "_" + rest) + "_" + b.model;
      assert DedupeKey(a) == DedupeKey(b);
    }
  }

  /** The keys join their parts with a character the parts may contain: two different connections
      share a key, and the second one's changes are emitted but dropped. */
  lemma KeysCollide()
    ensures
      var a := Hook("c_x", "y", None, 1, 0, Some("alice"), 0, 0, 0);
      var b := Hook("c", "x_y", None, 1, 0, Some("bob"), 1000, 1000, 1000);
      DedupeKey(a) == DedupeKey(b) && Sequential([a, b]) && AcceptedAt([a, b], 0) && EmittedAt([a, b], 1) && !AcceptedAt([a, b], 1)
  {
    var a := Hook("c_x", "y", None, 1, 0, Some("alice"), 0, 0, 0);
    var b := Hook("c", "x_y", None, 1, 0, Some("bob"), 1000, 1000, 1000);
    assert DedupeKey(a) == "c_x_y" == DedupeKey(b);
    assert WindowKey(a) == "webhook:c_x:y" && WindowKey(b) == "webhook:c:x_y";
    assert WindowKey(a)[9] != WindowKey(b)[9];
    assert [a, b][..0] == [] && [a, b][..1] == [a] && [a][..0] == [];
    assert After([a]) == Handled(After([]), a);
  }
}
