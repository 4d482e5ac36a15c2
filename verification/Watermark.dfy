/** The sync of one entity as a high-water-mark protocol against a changing source, with paging,
    page errors, failed saves and retries. */
module Watermark {
  import opened Wrappers
  import opened Sync
  import opened Json

  /** The records of the source: the stamp of each record's current version, by id. */
  type Source = map<string, nat>

  ghost predicate Matches(source: Source, q: Query, id: string) {
    id in source && (q.after.Some? ==> q.after.value < source[id])
  }

  ghost predicate HasId(rows: seq<Record>, id: string) {
    exists i :: 0 <= i < |rows| && rows[i].id == id
  }

  /** A correct answer to a query: matching records with their stamps, each once, ordered; at most
      `limit` of them, and if one is missing then `limit` of them, none of which comes after it. */
  ghost predicate IsAnswer(source: Source, q: Query, rows: seq<Record>) {
    && (forall i :: 0 <= i < |rows| ==> Matches(source, q, rows[i].id) && rows[i].systemModstamp == Some(source[rows[i].id]))
    && (forall i, j :: 0 <= i < j < |rows| ==>
          rows[i].id != rows[j].id &&
          if q.ascending then source[rows[i].id] <= source[rows[j].id] else source[rows[j].id] <= source[rows[i].id])
    && |rows| <= q.limit
    && (forall id <- source :: Matches(source, q, id) && !HasId(rows, id) ==>
          |rows| == q.limit &&
          forall i :: 0 <= i < |rows| ==>
            if q.ascending then source[rows[i].id] <= source[id] else source[id] <= source[rows[i].id])
  }

  /** The replies give these rows page by page, or an error at some point. */
  ghost predicate Paged(script: seq<Response>, rows: seq<Record>) {
    script == [] || script[0].HttpError? ||
    (script[0].records <= rows &&
     if script[0].more then Paged(script[1..], rows[|script[0].records|..]) else script[0].records == rows)
  }

  predicate Whole(t: nat) {
    t % 1000 == 0
  }

  /** No other record has this one's stamp. */
  ghost predicate Alone(source: Source, id: string)
    requires id in source
  {
    forall other <- source :: source[other] == source[id] ==> other == id
  }

  /** No stamp is later than `top`, and no two records share a stamp that is a whole second. */
  ghost predicate Stamped(source: Source, top: nat) {
    (forall id <- source :: source[id] <= top) && (forall id <- source :: Whole(source[id]) ==> Alone(source, id))
  }

  ghost predicate AllAlone(source: Source) {
    forall id <- source :: Alone(source, id)
  }

  /** A sync that has been asked and not yet been answered: the server's rows, and the source when
      the query ran. */
  datatype Asked = Asked(rows: seq<Record>, snapshot: Source, top: nat)

  /** `floor` and `tied` are history: the oldest stamp the first sync vouches for, and whether a
      change ever got the stamp of the one before it. */
  datatype State = State(source: Source, top: nat, sync: Option<SyncState>, saved: set<(string, nat)>,
                         floor: int, tied: bool, asked: Option<Asked>)

  /** A change gets a stamp no earlier than any before it, and a later one if it is a whole second. */
  datatype Event =
    | Change(id: string, stamp: nat)
    | Delete(id: string)
    | Ask(rows: seq<Record>)
    | Reply(script: seq<Response>, outcome: Outcome, kept: seq<Record>)

  function Mark(s: State): Option<nat> {
    if s.sync.Some? then s.sync.value.lastSystemModstamp else None
  }

  function Versions(rows: seq<Record>): set<(string, nat)> {
    set i | 0 <= i < |rows| && rows[i].systemModstamp.Some? :: (rows[i].id, rows[i].systemModstamp.value)
  }

  /** What the first sync vouches for: everything, if there was room for more. */
  function FloorOf(d: Definition, rows: seq<Record>): int {
    if |rows| < d.backfillLimit || rows == [] || rows[|rows| - 1].systemModstamp.None? then -1
    else rows[|rows| - 1].systemModstamp.value
  }

  ghost function Apply(d: Definition, s: State, e: Event): State {
    match e
    case Change(id, stamp) =>
      if s.top < stamp || (s.top == stamp && !Whole(stamp))
      then s.(source := s.source[id := stamp], top := stamp, tied := s.tied || s.top == stamp) else s
    case Delete(id) => s.(source := s.source - {id})
    case Ask(rows) =>
      if s.asked.None? && IsAnswer(s.source, BuildQuery(d, Mark(s)), rows) then s.(asked := Some(Asked(rows, s.source, s.top))) else s
    case Reply(script, o, kept) =>
      if s.asked.Some? && Paged(script, s.asked.value.rows) && Ended(s.sync, script, o, kept) then
        s.(sync := Kept(s.sync, o), saved := s.saved + Versions(kept), asked := None,
           floor := if Mark(s).None? && o.Synced? then FloorOf(d, kept) else s.floor)
      else s
  }

  ghost function After(d: Definition, s: State, es: seq<Event>): State
    decreases es
  {
    if es == [] then s else Apply(d, After(d, s, es[..|es| - 1]), es[|es| - 1])
  }

  /** The limits of a definition leave every answer below the cap on records per sync. */
  predicate Capped(d: Definition) {
    0 < d.backfillLimit <= MAX_RECORDS_PER_ENTITY && 0 < d.incrementalLimit <= MAX_RECORDS_PER_ENTITY
  }

  /** No other record can have had this stamp. */
  predicate Sure(s: State, t: nat) {
    Whole(t) || !s.tied
  }

  /** Every record version stamped between the floor and the mark has been saved; one stamped exactly
      at either, if no other can share its stamp. */
  ghost predicate NoGap(s: State) {
    Mark(s).Some? ==>
      forall id <- s.source ::
        var t := s.source[id];
        s.floor <= t <= Mark(s).value && (s.floor < t < Mark(s).value || Sure(s, t)) ==> (id, t) in s.saved
  }

  /** Every record version stamped above the floor has been saved or is still asked for. */
  ghost predicate NothingLost(d: Definition, s: State) {
    forall id <- s.source ::
      s.floor < s.source[id] ==> (id, s.source[id]) in s.saved || Matches(s.source, BuildQuery(d, Mark(s)), id)
  }

  ghost predicate AskedOk(d: Definition, s: State, a: Asked) {
    && Stamped(a.snapshot, a.top) && (!s.tied ==> AllAlone(a.snapshot)) && a.top <= s.top
    && IsAnswer(a.snapshot, BuildQuery(d, Mark(s)), a.rows)
    && (Mark(s).Some? ==> Mark(s).value <= a.top)
    && (forall id <- s.source ::
          var t := s.source[id];
          t < a.top || (t == a.top && Sure(s, t)) ==> id in a.snapshot && a.snapshot[id] == t)
  }

  ghost predicate Inv(d: Definition, s: State) {
    && Stamped(s.source, s.top) && (!s.tied ==> AllAlone(s.source))
    && (s.sync.Some? ==> Mark(s).Some?)
    && (Mark(s).Some? ==> Mark(s).value <= s.top)
    && NoGap(s)
    && (s.asked.Some? ==> AskedOk(d, s, s.asked.value))
  }

  /** An answer below the cap is read in pages: a prefix of it, all of it if there is no error. */
  lemma {:induction false} ReadPaged(script: seq<Response>, rows: seq<Record>, total: nat)
    requires Paged(script, rows) && total + |rows| <= MAX_RECORDS_PER_ENTITY
    ensures Read(script, total).0 <= rows && (Read(script, total).1 ==> Read(script, total).0 == rows)
    decreases script
  {
    if script != [] && script[0].Page? {
      var page := script[0].records;
      assert rows == page + rows[|page|..];
      if script[0].more && total + |page| < MAX_RECORDS_PER_ENTITY {
        ReadPaged(script[1..], rows[|page|..], total + |page|);
      }
    }
  }

  lemma ReadAnswer(d: Definition, source: Source, since: Option<nat>, script: seq<Response>, rows: seq<Record>)
    requires Capped(d) && IsAnswer(source, BuildQuery(d, since), rows) && Paged(script, rows)
    ensures Read(script, 0).0 <= rows && (Read(script, 0).1 ==> Read(script, 0).0 == rows)
  {
    ReadPaged(script, rows, 0);
  }

  /** If the mark moves, a record up to it that is left out has the mark's stamp, and shares it. */
  lemma LeftOutAtTheMark(d: Definition, source: Source, mark: nat, rows: seq<Record>, id: string)
    requires IsAnswer(source, BuildQuery(d, Some(mark)), rows) && Matches(source, BuildQuery(d, Some(mark)), id)
    requires Latest(rows, Some(mark)).Some? && mark < Latest(rows, Some(mark)).value
    requires !HasId(rows, id) && source[id] <= Latest(rows, Some(mark)).value
    ensures source[id] == Latest(rows, Some(mark)).value && !Alone(source, id)
  {
    hide Latest;
    LatestIsLatest(rows, Some(mark));
    var r :| r in rows && Stamp(r) == Latest(rows, Some(mark));
    var i :| 0 <= i < |rows| && rows[i] == r;
    assert source[rows[i].id] <= source[id] && rows[i].id != id;
  }

  /** A record the first sync leaves out is stamped below the floor, or shares the floor's stamp. */
  lemma LeftOutAtTheFloor(d: Definition, source: Source, rows: seq<Record>, id: string)
    requires IsAnswer(source, BuildQuery(d, None), rows) && id in source && 0 < d.backfillLimit
    requires !HasId(rows, id)
    ensures source[id] <= FloorOf(d, rows) && (source[id] == FloorOf(d, rows) ==> !Alone(source, id))
  {
    assert Matches(source, BuildQuery(d, None), id);
    var last := |rows| - 1;
    assert source[id] <= source[rows[last].id] && rows[last].id != id;
  }

  /** What a complete answer holds: every record it asked for up to the new mark, but perhaps some
      that share the stamp at which it was cut off. */
  lemma AnswerLeavesNoGap(d: Definition, source: Source, since: Option<nat>, rows: seq<Record>, id: string)
    requires IsAnswer(source, BuildQuery(d, since), rows) && Matches(source, BuildQuery(d, since), id) && Capped(d)
    requires Latest(rows, since).Some? && source[id] <= Latest(rows, since).value
    requires
      Alone(source, id) ||
      if since.Some? then source[id] < Latest(rows, since).value else FloorOf(d, rows) < source[id]
    requires since.Some? ==> since.value < Latest(rows, since).value
    requires since.None? ==> FloorOf(d, rows) <= source[id]
    ensures (id, source[id]) in Versions(rows)
  {
    hide Latest, IsAnswer, FloorOf;
    if !HasId(rows, id) {
      if since.Some? {
        LeftOutAtTheMark(d, source, since.value, rows, id);
      } else {
        LeftOutAtTheFloor(d, source, rows, id);
      }
      assert false;
    }
    RowOf(d, source, since, rows, id);
  }

  lemma RowOf(d: Definition, source: Source, since: Option<nat>, rows: seq<Record>, id: string)
    requires IsAnswer(source, BuildQuery(d, since), rows) && HasId(rows, id)
    ensures id in source && (id, source[id]) in Versions(rows)
  {
    var i :| 0 <= i < |rows| && rows[i].id == id;
    assert rows[i].systemModstamp == Some(source[id]);
  }

  lemma ReplyOk(d: Definition, s: State, e: Event)
    requires Capped(d) && Inv(d, s) && e.Reply?
    requires s.asked.Some? && Paged(e.script, s.asked.value.rows) && Ended(s.sync, e.script, e.outcome, e.kept)
    ensures Inv(d, Apply(d, s, e))
    ensures Mark(s).Some? ==> Mark(Apply(d, s, e)).Some? && Mark(s).value <= Mark(Apply(d, s, e)).value
  {
    hide Read, Latest, IsAnswer, Stamped, FloorOf;
    var a, since, s' := s.asked.value, Mark(s), Apply(d, s, e);
    ReadAnswer(d, a.snapshot, since, e.script, a.rows);
    if e.outcome.Synced? {
      assert e.kept == a.rows;
      LatestIsLatest(a.rows, since);
      if Latest(a.rows, since).Some? {
        StampsBelowTop(d, a.snapshot, a.top, since, a.rows);
        assert Mark(s') == Latest(a.rows, since) && Mark(s').value <= a.top;
        forall id |
          id in s'.source && s'.floor <= s'.source[id] <= Mark(s').value &&
          (s'.floor < s'.source[id] < Mark(s').value || Sure(s', s'.source[id]))
          ensures (id, s'.source[id]) in s'.saved
        {
          SavedByNow(d, s, s', since, Mark(s').value, id);
        }
      }
    }
  }

  lemma StampsBelowTop(d: Definition, source: Source, top: nat, since: Option<nat>, rows: seq<Record>)
    requires Stamped(source, top) && IsAnswer(source, BuildQuery(d, since), rows)
    ensures forall r <- rows :: Stamp(r).Some? && Stamp(r).value <= top
  {
    forall r | r in rows ensures Stamp(r).Some? && Stamp(r).value <= top {
      var i :| 0 <= i < |rows| && rows[i] == r;
    }
  }

  /** A version between the floor and the new mark was saved before, or is in the answer. */
  lemma SavedByNow(d: Definition, s: State, s': State, since: Option<nat>, mark: nat, id: string)
    requires Capped(d) && Inv(d, s) && s.asked.Some? && since == Mark(s) && id in s.source
    requires Latest(s.asked.value.rows, since) == Some(mark) && mark <= s.asked.value.top
    requires since.Some? ==> since.value <= mark
    requires s'.source == s.source && s'.tied == s.tied && s'.saved == s.saved + Versions(s.asked.value.rows)
    requires s'.floor == if since.None? then FloorOf(d, s.asked.value.rows) else s.floor
    requires s'.floor <= s.source[id] <= mark && (s'.floor < s.source[id] < mark || Sure(s, s.source[id]))
    ensures (id, s.source[id]) in s'.saved
  {
    hide Latest, IsAnswer, FloorOf;
    var a, t := s.asked.value, s.source[id];
    if since.None? || since.value < t || (since.value == t < mark && !Whole(t)) {
      assert id in a.snapshot && a.snapshot[id] == t;
      assert Sure(s, t) ==> Alone(a.snapshot, id);
      AnswerLeavesNoGap(d, a.snapshot, since, a.rows, id);
    }
  }

  lemma ChangeOk(d: Definition, s: State, id: string, stamp: nat)
    requires Inv(d, s)
    ensures Inv(d, Apply(d, s, Change(id, stamp)))
  {
    hide IsAnswer;
  }

  lemma DeleteOk(d: Definition, s: State, id: string)
    requires Inv(d, s)
    ensures Inv(d, Apply(d, s, Delete(id)))
  {
    hide IsAnswer;
  }

  lemma AskOk(d: Definition, s: State, rows: seq<Record>)
    requires Inv(d, s)
    ensures Inv(d, Apply(d, s, Ask(rows)))
  {
    hide IsAnswer, Stamped;
  }

  lemma ApplyOk(d: Definition, s: State, e: Event)
    requires Capped(d) && Inv(d, s)
    ensures Inv(d, Apply(d, s, e))
    ensures Mark(s).Some? ==> Mark(Apply(d, s, e)).Some? && Mark(s).value <= Mark(Apply(d, s, e)).value
  {
    hide Inv, IsAnswer;
    match e
    case Change(id, stamp) => ChangeOk(d, s, id, stamp);
    case Delete(id) => DeleteOk(d, s, id);
    case Ask(rows) => AskOk(d, s, rows);
    case Reply(script, o, kept) =>
      if s.asked.Some? && Paged(script, s.asked.value.rows) && Ended(s.sync, script, o, kept) { ReplyOk(d, s, e); }
  }

  /** Nothing synced yet. */
  ghost predicate Initial(s: State) {
    Stamped(s.source, s.top) && (!s.tied ==> AllAlone(s.source)) && s.sync.None? && s.asked.None?
  }

  /** No gap: over any list of changes, deletions, syncs, page errors, failed saves and retries, if no
      two records ever share a whole-second stamp, every current version stamped between the floor
      and the watermark has been saved, and every one above the floor has been or is still asked
      for; if no two records ever share a stamp, also those stamped exactly at the ends. */
  lemma {:induction false} NeverAGap(d: Definition, s: State, es: seq<Event>)
    requires Capped(d) && Initial(s)
    ensures Inv(d, After(d, s, es)) && NoGap(After(d, s, es)) && NothingLost(d, After(d, s, es))
    decreases es
  {
    hide Inv, NothingLost, Apply;
    if es == [] {
      InitialOk(d, s);
    } else {
      NeverAGap(d, s, es[..|es| - 1]);
      ApplyOk(d, After(d, s, es[..|es| - 1]), es[|es| - 1]);
    }
    NoGapOf(d, After(d, s, es));
    NoGapLosesNothing(d, After(d, s, es));
  }

  lemma InitialOk(d: Definition, s: State)
    requires Initial(s)
    ensures Inv(d, s)
  {
  }

  lemma NoGapOf(d: Definition, s: State)
    requires Inv(d, s)
    ensures NoGap(s)
  {
  }

  /** What is not saved above the floor is newer than the mark, or has the mark's stamp within a second. */
  lemma NoGapLosesNothing(d: Definition, s: State)
    requires NoGap(s)
    ensures NothingLost(d, s)
  {
  }

  /** The watermark never moves back, whatever happens next. */
  lemma {:induction false} MarkNeverMovesBack(d: Definition, s: State, es: seq<Event>, more: seq<Event>)
    requires Capped(d) && Initial(s) && Mark(After(d, s, es)).Some?
    ensures
      var m, m' := Mark(After(d, s, es)), Mark(After(d, s, es + more));
      m'.Some? && m.value <= m'.value
    decreases more
  {
    hide Apply, Inv, NoGap, NothingLost, Initial, Capped;
    if more == [] {
      assert es + more == es;
    } else {
      var front := more[..|more| - 1];
      MarkNeverMovesBack(d, s, es, front);
      assert (es + more)[..|es + more| - 1] == es + front;
      NeverAGap(d, s, es + front);
      ApplyOk(d, After(d, s, es + front), more[|more| - 1]);
    }
  }

  /** The entities the source syncs keep below the cap, so all this applies to each of them. */
  lemma DefinitionsAreCapped(k: nat)
    requires k < |ENTITY_DEFINITIONS|
    ensures Capped(ENTITY_DEFINITIONS[k])
  {
  }

  // ---- The sync itself, as events ---------------------------------------------------------------

  lemma VersionsAppend(a: seq<Record>, b: seq<Record>)
    ensures Versions(a + b) == Versions(a) + Versions(b)
  {
    forall v | v in Versions(a) + Versions(b) ensures v in Versions(a + b) {
      if v in Versions(a) {
        var i :| 0 <= i < |a| && a[i].systemModstamp.Some? && v == (a[i].id, a[i].systemModstamp.value);
        assert (a + b)[i] == a[i];
      } else {
        var i :| 0 <= i < |b| && b[i].systemModstamp.Some? && v == (b[i].id, b[i].systemModstamp.value);
        assert (a + b)[|a| + i] == b[i];
      }
    }
  }

  /** Refinement. What `SyncEntity` promises, when the server answers its query (spelled out here as in
      its contract) correctly or fails on the way, is an `Ask` and a `Reply` of the protocol: the kept
      state is the protocol's, what the platform holds is what the protocol has saved, and nothing
      is lost. */
  lemma SyncRefines(d: Definition, s: State, server: Query -> seq<Response>, rows: seq<Record>,
                    before: Saves, after: Saves, o: Outcome, kept: seq<Record>)
    requires Capped(d) && Inv(d, s) && s.asked.None? && Versions(SavedIn(before, d.model)) == s.saved
    requires
      var query :=
        if s.sync.Some? && s.sync.value.lastSystemModstamp.Some?
        then Query(d.entityType, Some(s.sync.value.lastSystemModstamp.value / 1000 * 1000), true, d.incrementalLimit)
        else Query(d.entityType, None, false, d.backfillLimit);
      IsAnswer(s.source, query, rows) && Paged(server(query), rows) && Ended(s.sync, server(query), o, kept)
    requires Grown(before, after, d.model, kept)
    ensures
      var query := BuildQuery(d, Mark(s));
      var s' := After(d, s, [Ask(rows), Reply(server(query), o, kept)]);
      s'.sync == (if o.Synced? && o.state.Some? then o.state else s.sync) &&
      s'.saved == Versions(SavedIn(after, d.model)) &&
      s'.asked.None? && s'.source == s.source && Inv(d, s') && NothingLost(d, s') &&
      (Mark(s).Some? ==> Mark(s').Some? && Mark(s).value <= Mark(s').value)
  {
    hide Inv, IsAnswer, Read, NothingLost;
    var query := BuildQuery(d, Mark(s));
    var ask, reply := Ask(rows), Reply(server(query), o, kept);
    VersionsAppend(SavedIn(before, d.model), kept);
    AfterTwo(d, s, ask, reply);
    ApplyOk(d, s, ask);
    var s1 := Apply(d, s, ask);
    ApplyOk(d, s1, reply);
    NoGapOf(d, Apply(d, s1, reply));
    NoGapLosesNothing(d, Apply(d, s1, reply));
  }

  // ---- The first sync -----------------------------------------------------------------------------

  /** What a complete first sync saves, whatever is later called the floor: everything, if the answer
      had room for more; otherwise everything newer than its last row. */
  lemma FirstSyncSaves(d: Definition, s: State, ask: Event, reply: Event, id: string)
    requires Capped(d) && Mark(s).None? && Complete(d, s, ask, reply) && id in s.source
    requires |ask.rows| < d.backfillLimit || s.source[id] > s.source[ask.rows[|ask.rows| - 1].id]
    ensures (id, s.source[id]) in Apply(d, Apply(d, s, ask), reply).saved
  {
    hide Read, Latest;
    ReadAnswer(d, s.source, None, reply.script, ask.rows);
    assert Matches(s.source, BuildQuery(d, None), id);
    assert HasId(ask.rows, id);
    RowOf(d, s.source, None, ask.rows, id);
  }

  /** The floor is settled by the sync that sets the first mark: it is below every stamp if the answer
      had room for more, and otherwise the stamp of the answer's last row; it never moves again. */
  lemma FloorMeans(d: Definition, s: State, ask: Event, reply: Event)
    requires Capped(d) && Inv(d, s) && Complete(d, s, ask, reply)
    ensures
      var floor := Apply(d, Apply(d, s, ask), reply).floor;
      if Mark(s).Some? then floor == s.floor
      else if |ask.rows| < d.backfillLimit then floor < 0
      else floor == s.source[ask.rows[|ask.rows| - 1].id]
  {
    hide Read, Latest;
    ReadAnswer(d, s.source, Mark(s), reply.script, ask.rows);
  }

  lemma {:induction false} FloorStays(d: Definition, s: State, es: seq<Event>)
    requires Capped(d) && Inv(d, s) && Mark(s).Some?
    ensures Inv(d, After(d, s, es)) && Mark(After(d, s, es)).Some? && After(d, s, es).floor == s.floor
    decreases es
  {
    hide Inv;
    if es == [] {
    } else {
      FloorStays(d, s, es[..|es| - 1]);
      ApplyOk(d, After(d, s, es[..|es| - 1]), es[|es| - 1]);
    }
  }

  // ---- Progress -----------------------------------------------------------------------------------

  /** What an incremental query asks for although it is not new: the cursor is cut to the second. */
  ghost function Refetched(source: Source, mark: nat): set<string> {
    set id | id in source && WholeSecond(mark) < source[id] <= mark
  }

  ghost function New(source: Source, mark: nat): set<string> {
    set id | id in source && mark < source[id]
  }

  function Ids(rows: seq<Record>): set<string> {
    set i | 0 <= i < |rows| :: rows[i].id
  }

  lemma {:induction false} IdsCount(rows: seq<Record>)
    requires forall i, j :: 0 <= i < j < |rows| ==> rows[i].id != rows[j].id
    ensures |Ids(rows)| == |rows|
  {
    if rows == [] {
    } else {
      var front := rows[..|rows| - 1];
      IdsCount(front);
      assert Ids(rows) == Ids(front) + {rows[|rows| - 1].id};
      assert rows[|rows| - 1].id !in Ids(front);
    }
  }

  lemma {:induction false} SubsetCount(a: set<string>, b: set<string>)
    requires a <= b
    ensures |a| <= |b|
  {
    if a != {} {
      var x :| x in a;
      SubsetCount(a - {x}, b - {x});
    }
  }

  /** If the watermark moves, all the records fetched again came first in the answer. */
  lemma MovingLeavesRoom(d: Definition, source: Source, mark: nat, rows: seq<Record>)
    requires IsAnswer(source, BuildQuery(d, Some(mark)), rows)
    requires Latest(rows, Some(mark)).Some? && mark < Latest(rows, Some(mark)).value
    ensures New(source, mark) != {} && |Refetched(source, mark)| < d.incrementalLimit
  {
    hide Latest;
    var again := Refetched(source, mark);
    LatestIsLatest(rows, Some(mark));
    var r :| r in rows && Stamp(r) == Latest(rows, Some(mark));
    var i :| 0 <= i < |rows| && rows[i] == r;
    assert r.id in New(source, mark);
    forall id | id in again ensures id in Ids(rows) {
      assert Matches(source, BuildQuery(d, Some(mark)), id);
      assert source[id] < source[rows[i].id];
      assert HasId(rows, id);
    }
    assert rows[i].id in Ids(rows) && rows[i].id !in again;
    SubsetCount(again + {r.id}, Ids(rows));
    IdsCount(rows);
  }

  /** If it does not move, the answer held only records fetched again. */
  lemma StayingLeavesNone(d: Definition, source: Source, mark: nat, rows: seq<Record>)
    requires IsAnswer(source, BuildQuery(d, Some(mark)), rows)
    requires Latest(rows, Some(mark)) == Some(mark)
    ensures New(source, mark) == {} || |Refetched(source, mark)| >= d.incrementalLimit
  {
    hide Latest;
    LatestIsLatest(rows, Some(mark));
    forall x | x in Ids(rows) ensures x in Refetched(source, mark) {
      var i :| 0 <= i < |rows| && rows[i].id == x;
      assert rows[i] in rows;
    }
    SubsetCount(Ids(rows), Refetched(source, mark));
    IdsCount(rows);
    if New(source, mark) != {} {
      var id :| id in New(source, mark);
      assert Matches(source, BuildQuery(d, Some(mark)), id);
      assert HasId(rows, id) ==> id in Ids(rows);
      assert !HasId(rows, id);
    }
  }

  /** Progress, exactly: a complete sync of a quiet source moves the watermark if and only if there
      is something new and the records it must fetch again leave room in the answer. */
  lemma MovesExactly(d: Definition, source: Source, mark: nat, rows: seq<Record>)
    requires IsAnswer(source, BuildQuery(d, Some(mark)), rows)
    ensures
      Latest(rows, Some(mark)).Some? &&
      (mark < Latest(rows, Some(mark)).value <==> New(source, mark) != {} && |Refetched(source, mark)| < d.incrementalLimit)
  {
    LatestIsLatest(rows, Some(mark));
    if mark < Latest(rows, Some(mark)).value {
      MovingLeavesRoom(d, source, mark, rows);
    } else {
      StayingLeavesNone(d, source, mark, rows);
    }
  }

  /** When the watermark moves, fewer records remain to be synced. */
  lemma MovingShrinks(d: Definition, source: Source, mark: nat, rows: seq<Record>)
    requires IsAnswer(source, BuildQuery(d, Some(mark)), rows)
    requires Latest(rows, Some(mark)).Some? && mark < Latest(rows, Some(mark)).value
    ensures New(source, Latest(rows, Some(mark)).value) < New(source, mark)
  {
    LatestIsLatest(rows, Some(mark));
    var r :| r in rows && Stamp(r) == Latest(rows, Some(mark));
    assert r.id in New(source, mark) && r.id !in New(source, Latest(rows, Some(mark)).value);
  }

  /** If no second holds as many records as the limit, every complete sync of a quiet source that
      has anything new shrinks what remains. */
  lemma QuietSourceIsCaughtUp(d: Definition, source: Source, mark: nat, rows: seq<Record>)
    requires IsAnswer(source, BuildQuery(d, Some(mark)), rows) && New(source, mark) != {}
    requires Uncrowded(d, source)
    ensures
      Latest(rows, Some(mark)).Some? && New(source, Latest(rows, Some(mark)).value) < New(source, mark)
  {
    SubsetCount(Refetched(source, mark), InSecond(source, WholeSecond(mark)));
    MovesExactly(d, source, mark, rows);
    MovingShrinks(d, source, mark, rows);
  }

  ghost function InSecond(source: Source, t: nat): set<string> {
    set id | id in source && WholeSecond(source[id]) == t
  }

  /** No second holds as many records as an answer. */
  ghost predicate Uncrowded(d: Definition, source: Source) {
    forall t: nat :: |InSecond(source, t)| < d.incrementalLimit
  }

  /** One sync that is asked, answered and saved without an error. */
  ghost predicate Complete(d: Definition, s: State, ask: Event, reply: Event) {
    && s.asked.None? && ask.Ask? && IsAnswer(s.source, BuildQuery(d, Mark(s)), ask.rows)
    && reply.Reply? && reply.outcome.Synced?
    && Paged(reply.script, ask.rows) && Ended(s.sync, reply.script, reply.outcome, reply.kept)
  }

  /** Nothing but complete syncs, one after another. */
  ghost predicate CompleteSyncs(d: Definition, s: State, es: seq<Event>)
    decreases es
  {
    es == [] ||
    (|es| >= 2 && Complete(d, s, es[0], es[1]) && CompleteSyncs(d, Apply(d, Apply(d, s, es[0]), es[1]), es[2..]))
  }

  ghost predicate AllSavedAbove(s: State) {
    forall id <- s.source :: s.floor < s.source[id] ==> (id, s.source[id]) in s.saved
  }

  /** What one complete sync of a quiet source does. */
  lemma CompleteSync(d: Definition, s: State, ask: Event, reply: Event)
    requires Capped(d) && Inv(d, s) && Mark(s).Some? && Complete(d, s, ask, reply)
    ensures
      var s' := Apply(d, Apply(d, s, ask), reply);
      Inv(d, s') && s'.asked.None? && s'.source == s.source && s'.floor == s.floor && s'.tied == s.tied &&
      Mark(s') == Latest(ask.rows, Mark(s)) && Mark(s').Some? && s'.saved == s.saved + Versions(ask.rows) &&
      (AllSavedAbove(s) ==> AllSavedAbove(s'))
  {
    hide Inv, IsAnswer, Latest, Read;
    ApplyOk(d, s, ask);
    ApplyOk(d, Apply(d, s, ask), reply);
    ReadAnswer(d, s.source, Mark(s), reply.script, ask.rows);
    LatestIsLatest(ask.rows, Mark(s));
  }

  /** If nothing is newer than the mark, a complete sync saves what is left in the mark's second. */
  lemma LastOfTheSecond(d: Definition, source: Source, mark: nat, rows: seq<Record>, id: string)
    requires Uncrowded(d, source) && IsAnswer(source, BuildQuery(d, Some(mark)), rows) && New(source, mark) == {}
    requires Matches(source, BuildQuery(d, Some(mark)), id)
    ensures (id, source[id]) in Versions(rows)
  {
    var second := InSecond(source, WholeSecond(mark));
    forall x | x in Ids(rows) ensures x in second {
      var i :| 0 <= i < |rows| && rows[i].id == x;
      assert Matches(source, BuildQuery(d, Some(mark)), rows[i].id) && x !in New(source, mark);
    }
    SubsetCount(Ids(rows), second);
    IdsCount(rows);
    assert HasId(rows, id);
    RowOf(d, source, Some(mark), rows, id);
  }

  /** Catching up: if no second holds as many records as an answer, then in a quiet source as many
      complete syncs as there are new records reach a mark beyond which there is nothing, with every
      version saved from the floor on if no two records ever shared a stamp; and after one sync more
      every version above the floor has been saved in any case. */
  lemma {:induction false} CatchesUp(d: Definition, s: State, es: seq<Event>)
    requires Capped(d) && Inv(d, s) && Mark(s).Some? && Uncrowded(d, s.source) && CompleteSyncs(d, s, es)
    ensures
      var s', n := After(d, s, es), |New(s.source, Mark(s).value)|;
      s'.source == s.source && Mark(s').Some? &&
      (|es| >= 2 * n ==>
         New(s'.source, Mark(s').value) == {} &&
         (!s'.tied ==> forall id <- s'.source :: s'.floor <= s'.source[id] ==> (id, s'.source[id]) in s'.saved)) &&
      (|es| >= 2 * n + 2 ==> AllSavedAbove(s'))
    ensures AllSavedAbove(s) ==> AllSavedAbove(After(d, s, es))
    decreases es
  {
    hide Apply, Inv, AllSavedAbove, Uncrowded;
    if es == [] {
      if New(s.source, Mark(s).value) == {} && !s.tied { NothingNewAllSaved(d, s); }
    } else {
      var s2 := Apply(d, Apply(d, s, es[0]), es[1]);
      CompleteSync(d, s, es[0], es[1]);
      CatchesUp(d, s2, es[2..]);
      AfterPair(d, s, es);
      var mark := Mark(s).value;
      if New(s.source, mark) != {} {
        QuietSourceIsCaughtUp(d, s.source, mark, es[0].rows);
        SmallerCount(New(s.source, Mark(s2).value), New(s.source, mark));
      } else {
        NothingNewStays(s.source, mark, es[0].rows);
        LastSync(d, s, s2, es[0].rows);
      }
    }
  }

  lemma NothingNewAllSaved(d: Definition, s: State)
    requires Inv(d, s) && Mark(s).Some? && New(s.source, Mark(s).value) == {} && !s.tied
    ensures forall id <- s.source :: s.floor <= s.source[id] ==> (id, s.source[id]) in s.saved
  {
    forall id | id in s.source ensures s.source[id] <= Mark(s).value {
      assert id !in New(s.source, Mark(s).value);
    }
  }

  lemma NothingNewStays(source: Source, mark: nat, rows: seq<Record>)
    requires New(source, mark) == {} && Latest(rows, Some(mark)).Some?
    ensures New(source, Latest(rows, Some(mark)).value) == {}
  {
    LatestIsLatest(rows, Some(mark));
    forall id | id in source ensures source[id] <= mark { assert id !in New(source, mark); }
  }

  lemma LastSync(d: Definition, s: State, s': State, rows: seq<Record>)
    requires Inv(d, s) && Mark(s).Some? && Uncrowded(d, s.source) && New(s.source, Mark(s).value) == {}
    requires IsAnswer(s.source, BuildQuery(d, Mark(s)), rows)
    requires s'.source == s.source && s'.floor == s.floor && s'.saved == s.saved + Versions(rows)
    ensures AllSavedAbove(s')
  {
    hide IsAnswer, Uncrowded;
    NoGapLosesNothing(d, s);
    forall id | id in s.source && s.floor < s.source[id] ensures (id, s.source[id]) in s'.saved {
      if (id, s.source[id]) !in s.saved { LastOfTheSecond(d, s.source, Mark(s).value, rows, id); }
    }
  }

  lemma SmallerCount(a: set<string>, b: set<string>)
    requires a < b
    ensures |a| < |b|
  {
    var x :| x in b && x !in a;
    SubsetCount(a, b - {x});
  }

  lemma {:induction false} AfterCons(d: Definition, s: State, e: Event, es: seq<Event>)
    ensures After(d, s, [e] + es) == After(d, Apply(d, s, e), es)
    decreases es
  {
    hide Apply;
    if es == [] {
      assert [e] + es == [e] && [e][..0] == [];
      assert After(d, s, []) == s;
    } else {
      var front := es[..|es| - 1];
      assert ([e] + es)[..|es|] == [e] + front;
      AfterCons(d, s, e, front);
    }
  }

  lemma AfterPair(d: Definition, s: State, es: seq<Event>)
    requires |es| >= 2
    ensures After(d, s, es) == After(d, Apply(d, Apply(d, s, es[0]), es[1]), es[2..])
  {
    assert es == [es[0]] + ([es[1]] + es[2..]);
    AfterCons(d, s, es[0], [es[1]] + es[2..]);
    AfterCons(d, Apply(d, s, es[0]), es[1], es[2..]);
  }

  // ---- Ties -----------------------------------------------------------------------------------------

  /** Exactly which records a moving mark loses: a record newer than the old mark and not beyond the
      new one that the answer leaves out shares the new mark's stamp, and the next query asks for it
      if and only if that stamp is not a whole second. */
  lemma TieLostExactly(d: Definition, source: Source, mark: nat, rows: seq<Record>, id: string)
    requires IsAnswer(source, BuildQuery(d, Some(mark)), rows) && id in source && !HasId(rows, id)
    requires Latest(rows, Some(mark)).Some? && mark < source[id] <= Latest(rows, Some(mark)).value
    ensures
      var t := Latest(rows, Some(mark)).value;
      source[id] == t && !Alone(source, id) && (Matches(source, BuildQuery(d, Some(t)), id) <==> !Whole(t))
  {
    assert Matches(source, BuildQuery(d, Some(mark)), id);
    LeftOutAtTheMark(d, source, mark, rows, id);
  }

  /** No sync in flight, the mark at or past a whole second, and a version of that stamp not saved. */
  ghost predicate Missed(s: State, id: string, t: nat) {
    Whole(t) && Mark(s).Some? && t <= Mark(s).value && (id, t) !in s.saved &&
    (s.asked.Some? ==> (id, t) !in Versions(s.asked.value.rows))
  }

  /** What was missed so is lost for good, whatever happens next. */
  lemma {:induction false} MissedForGood(d: Definition, s: State, es: seq<Event>, id: string, t: nat)
    requires Capped(d) && Missed(s, id, t) && (s.asked.Some? ==> AskedUpTo(d, s))
    ensures Missed(After(d, s, es), id, t) && (After(d, s, es).asked.Some? ==> AskedUpTo(d, After(d, s, es)))
    decreases es
  {
    if es == [] {
    } else {
      MissedForGood(d, s, es[..|es| - 1], id, t);
      StillMissed(d, After(d, s, es[..|es| - 1]), es[|es| - 1], id, t);
    }
  }

  ghost predicate AskedUpTo(d: Definition, s: State)
    requires s.asked.Some?
  {
    IsAnswer(s.asked.value.snapshot, BuildQuery(d, Mark(s)), s.asked.value.rows)
  }

  lemma NoOldVersions(d: Definition, source: Source, mark: nat, rows: seq<Record>, id: string, t: nat)
    requires IsAnswer(source, BuildQuery(d, Some(mark)), rows) && Whole(t) && t <= mark
    ensures (id, t) !in Versions(rows)
  {
    forall i | 0 <= i < |rows| ensures rows[i].systemModstamp != Some(t) {
      assert Matches(source, BuildQuery(d, Some(mark)), rows[i].id);
    }
  }

  lemma StillMissed(d: Definition, s: State, e: Event, id: string, t: nat)
    requires Capped(d) && Missed(s, id, t) && (s.asked.Some? ==> AskedUpTo(d, s))
    ensures Missed(Apply(d, s, e), id, t) && (Apply(d, s, e).asked.Some? ==> AskedUpTo(d, Apply(d, s, e)))
  {
    hide Read, Latest;
    match e
    case Change(_, _) =>
    case Delete(_) =>
    case Ask(rows) =>
      if IsAnswer(s.source, BuildQuery(d, Mark(s)), rows) { NoOldVersions(d, s.source, Mark(s).value, rows, id, t); }
    case Reply(script, o, kept) =>
      if s.asked.Some? && Paged(script, s.asked.value.rows) && Ended(s.sync, script, o, kept) {
        ReadAnswer(d, s.asked.value.snapshot, Mark(s), script, s.asked.value.rows);
        LatestIsLatest(kept, Mark(s));
      }
  }

  /** `n` records of one stamp. */
  function Tied(n: nat, t: nat): (source: Source)
    ensures forall id <- source :: source[id] == t
    ensures forall k: nat :: k < n ==> Decimal(k) in source
  {
    if n == 0 then map[] else Tied(n - 1, t)[Decimal(n - 1) := t]
  }

  function TiedRows(n: nat, t: nat): seq<Record> {
    seq(n, k requires 0 <= k < n => Record(Decimal(k), Some(t), None))
  }

  lemma DecimalsDiffer(a: nat, b: nat)
    requires a != b
    ensures Decimal(a) != Decimal(b)
  {
    DecimalRoundTrip(a);
    DecimalRoundTrip(b);
  }

  lemma TiedAnswer(d: Definition, mark: nat, t: nat)
    requires Capped(d) && mark < t
    ensures
      var n := d.incrementalLimit;
      IsAnswer(Tied(n + 1, t), BuildQuery(d, Some(mark)), TiedRows(n, t)) && !HasId(TiedRows(n, t), Decimal(n)) &&
      Latest(TiedRows(n, t), Some(mark)) == Some(t)
  {
    var n, rows := d.incrementalLimit, TiedRows(d.incrementalLimit, t);
    forall i, j | 0 <= i < j <= n ensures Decimal(i) != Decimal(j) { DecimalsDiffer(i, j); }
    LatestIsLatest(rows, Some(mark));
    assert rows[0] in rows;
  }

  /** So the hypothesis is needed, for every entity: if as many records as fit into an answer and one
      more share a whole-second stamp, a complete sync can leave one of them out, and that version is
      never saved, whatever happens next. */
  lemma TieIsLost(d: Definition, s: State, t: nat, more: seq<Event>)
    requires Capped(d) && Mark(s).Some? && Mark(s).value < t && Whole(t) && s.asked.None?
    requires s.source == Tied(d.incrementalLimit + 1, t) && forall id <- s.source :: (id, t) !in s.saved
    ensures
      var rows, lost := TiedRows(d.incrementalLimit, t), Decimal(d.incrementalLimit);
      var sync := [Ask(rows), Reply([Page(rows, false)], Synced(Some(SyncState(Some(t), true))), rows)];
      var s' := After(d, s, sync);
      s'.source == s.source && lost in s'.source && Mark(s') == Some(t) && s'.asked.None? && (lost, t) !in After(d, s', more).saved
  {
    var n := d.incrementalLimit;
    var rows, lost := TiedRows(n, t), Decimal(n);
    var ask := Ask(rows);
    var reply := Reply([Page(rows, false)], Synced(Some(SyncState(Some(t), true))), rows);
    TiedAnswer(d, Mark(s).value, t);
    hide IsAnswer, Tied, TiedRows, Latest;
    AfterTwo(d, s, ask, reply);
    var s1 := Apply(d, s, ask);
    var s2 := Apply(d, s1, reply);
    assert s1.asked == Some(Asked(rows, s.source, s.top));
    OnePage(rows);
    assert Ended(s1.sync, reply.script, reply.outcome, reply.kept);
    assert (lost, t) !in Versions(rows);
    MissedForGood(d, s2, more, lost, t);
  }

  /** For instance after a sync up to second 1, when one more record than fits changes at second 5. */
  lemma TieIsLostExample(k: nat, more: seq<Event>)
    requires k < |ENTITY_DEFINITIONS|
    ensures
      var d := ENTITY_DEFINITIONS[k];
      var n := d.incrementalLimit;
      var s := State(Tied(n + 1, 5000), 5000, Some(SyncState(Some(1000), true)), {}, -1, true, None);
      var sync := [Ask(TiedRows(n, 5000)), Reply([Page(TiedRows(n, 5000), false)], Synced(Some(SyncState(Some(5000), true))), TiedRows(n, 5000))];
      Decimal(n) in s.source && (Decimal(n), 5000) !in After(d, After(d, s, sync), more).saved
  {
    var d := ENTITY_DEFINITIONS[k];
    DefinitionsAreCapped(k);
    var s := State(Tied(d.incrementalLimit + 1, 5000), 5000, Some(SyncState(Some(1000), true)), {}, -1, true, None);
    TieIsLost(d, s, 5000, more);
  }

  // ---- Crowded seconds ----------------------------------------------------------------------------

  /** If something is new but the records to be fetched again leave it no room, complete syncs of a
      quiet source never move the mark, however many there are. */
  lemma {:induction false} CrowdStopsTheSync(d: Definition, s: State, es: seq<Event>)
    requires Capped(d) && Inv(d, s) && Mark(s).Some? && CompleteSyncs(d, s, es)
    requires |Refetched(s.source, Mark(s).value)| >= d.incrementalLimit
    ensures Mark(After(d, s, es)) == Mark(s)
    decreases es
  {
    hide Inv, IsAnswer, Apply, Latest;
    if es == [] {
    } else {
      var s2 := Apply(d, Apply(d, s, es[0]), es[1]);
      CompleteSync(d, s, es[0], es[1]);
      MovesExactly(d, s.source, Mark(s).value, es[0].rows);
      LatestIsLatest(es[0].rows, Mark(s));
      CrowdStopsTheSync(d, s2, es[2..]);
      AfterPair(d, s, es);
    }
  }

  /** Such a source, for every entity: as many records as fit into an answer at one time within a
      second, and one a millisecond later. The last one is new, a correct answer leaves it out, and
      no complete sync will ever get to it. */
  lemma CrowdedExample(d: Definition, t: nat)
    requires Capped(d) && !Whole(t)
    ensures
      var n := d.incrementalLimit;
      var source := Tied(n, t)[Decimal(n) := t + 1];
      Decimal(n) in New(source, t) && |Refetched(source, t)| >= n &&
      IsAnswer(source, BuildQuery(d, Some(t)), TiedRows(n, t)) && Latest(TiedRows(n, t), Some(t)) == Some(t)
  {
    var n, rows := d.incrementalLimit, TiedRows(d.incrementalLimit, t);
    var source := Tied(n, t)[Decimal(n) := t + 1];
    hide IsAnswer, Tied, Latest, Refetched;
    forall i, j | 0 <= i < j <= n ensures Decimal(i) != Decimal(j) { DecimalsDiffer(i, j); }
    TiedIsAnswer(d, source, t);
    SubsetCount(Ids(rows), Refetched(source, t));
    IdsCount(rows);
    LatestIsLatest(rows, Some(t));
  }

  lemma TiedIsAnswer(d: Definition, source: Source, t: nat)
    requires !Whole(t) && source == Tied(d.incrementalLimit, t)[Decimal(d.incrementalLimit) := t + 1]
    requires forall i, j :: 0 <= i < j <= d.incrementalLimit ==> Decimal(i) != Decimal(j)
    ensures IsAnswer(source, BuildQuery(d, Some(t)), TiedRows(d.incrementalLimit, t))
    ensures forall x <- Ids(TiedRows(d.incrementalLimit, t)) :: x in Refetched(source, t)
  {
    assert WholeSecond(t) < t;
  }

  lemma OnePage(rows: seq<Record>)
    ensures Read([Page(rows, false)], 0) == (rows, true) && Paged([Page(rows, false)], rows)
  {
  }

  lemma AfterTwo(d: Definition, s: State, a: Event, b: Event)
    ensures After(d, s, [a, b]) == Apply(d, Apply(d, s, a), b)
  {
    hide Apply;
    assert [a, b][..1] == [a] && [a][..0] == [];
    assert After(d, s, [a]) == Apply(d, After(d, s, []), a);
  }
}
