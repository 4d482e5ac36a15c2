/** The incremental Salesforce sync (nango-integrations/salesforce-2/syncs/fetch-entities.ts).
    Time stamps are milliseconds; the source compares them as text of one fixed format, in which the
    order of the texts is the order of the times. */
module Sync {
  import opened Wrappers

  const MAX_RECORDS_PER_ENTITY: nat := 1200
  const BATCH_SAVE_CHUNK: nat := 200

  datatype Definition = Definition(entityType: string, model: string, backfillLimit: nat, incrementalLimit: nat)

  const ENTITY_DEFINITIONS: seq<Definition> := [
    Definition("Lead", "SalesforceLead", 500, 250),
    Definition("Contact", "SalesforceContact", 500, 250),
    Definition("Account", "SalesforceAccount", 400, 200),
    Definition("Opportunity", "SalesforceOpportunity", 400, 200),
    Definition("Case", "SalesforceCase", 300, 150),
    Definition("Article", "SalesforceArticle", 200, 100)
  ]

  datatype Record = Record(id: string, systemModstamp: Option<nat>, lastModified: Option<nat>)

  datatype SyncState = SyncState(lastSystemModstamp: Option<nat>, backfillCompleted: bool)

  /** One reply of the server: a page, with a link to the next one or not, or an error. */
  datatype Response = Page(records: seq<Record>, more: bool) | HttpError(message: string)

  datatype Query = Query(entityType: string, after: Option<nat>, ascending: bool, limit: nat)

  /** getRecordStamp */
  function Stamp(r: Record): Option<nat> {
    OrElse(r.systemModstamp, r.lastModified)
  }

  /** formatSoqlTimestamp drops the fraction of the second. */
  function WholeSecond(t: nat): nat {
    t / 1000 * 1000
  }

  /** buildQuery */
  function BuildQuery(d: Definition, since: Option<nat>): Query {
    Query(d.entityType, if since.Some? then Some(WholeSecond(since.value)) else None, since.Some?,
          if since.Some? then d.incrementalLimit else d.backfillLimit)
  }

  function Later(max: Option<nat>, stamp: Option<nat>): Option<nat> {
    if stamp.None? then max else if max.None? || stamp.value > max.value then stamp else max
  }

  /** The reduce over a page. */
  function Latest(records: seq<Record>, max: Option<nat>): Option<nat> {
    if records == [] then max else Latest(records[1..], Later(max, Stamp(records[0])))
  }

  /** What the page loop reads when it gets these replies, having read `total` records before, and
      whether it ends without an error. Replies that never come count as an error. */
  function Read(script: seq<Response>, total: nat): (seq<Record>, bool) {
    if script == [] then ([], false)
    else
      match script[0]
      case HttpError(_) => ([], false)
      case Page(records, more) =>
        if !more || total + |records| >= MAX_RECORDS_PER_ENTITY then (records, true)
        else
          var (rest, ok) := Read(script[1..], total + |records|);
          (records + rest, ok)
  }

  function Since(prev: Option<SyncState>): Option<nat> {
    if prev.Some? then prev.value.lastSystemModstamp else None
  }

  /** The replies to the sync's query. */
  function Script(server: Query -> seq<Response>, d: Definition, prev: Option<SyncState>): seq<Response> {
    server(BuildQuery(d, Since(prev)))
  }

  /** The state syncEntity returns; `None` is `null`. */
  function NextState(prev: Option<SyncState>, records: seq<Record>): Option<SyncState> {
    var since := Since(prev);
    var latest := Latest(records, since);
    if latest.None? && prev.None? then None else Some(SyncState(OrElse(latest, since), true))
  }

  datatype Outcome = Synced(state: Option<SyncState>) | Threw(message: string)

  type Saves = map<string, seq<Record>>

  function SavedIn(saves: Saves, model: string): seq<Record> {
    if model in saves then saves[model] else []
  }

  /** Exactly the records `kept` were added, under this model. */
  ghost predicate Grown(before: Saves, after: Saves, model: string, kept: seq<Record>) {
    SavedIn(after, model) == SavedIn(before, model) + kept &&
    forall m :: m != model ==> SavedIn(after, m) == SavedIn(before, m)
  }

  lemma GrownNone(saves: Saves, model: string)
    ensures Grown(saves, saves, model, [])
  {
  }

  lemma GrownJoins(a: Saves, b: Saves, c: Saves, model: string, x: seq<Record>, y: seq<Record>)
    requires Grown(a, b, model, x) && Grown(b, c, model, y)
    ensures Grown(a, c, model, x + y)
  {
  }

  /** Every save from number `from` up to, not including, `to` succeeds. */
  ghost predicate AllWork(saveWorks: nat -> bool, from: nat, to: nat) {
    from <= to && forall k :: from <= k < to ==> saveWorks(k)
  }

  lemma AllWorkJoins(saveWorks: nat -> bool, a: nat, b: nat, c: nat)
    requires a <= b <= c
    ensures AllWork(saveWorks, a, c) <==> AllWork(saveWorks, a, b) && AllWork(saveWorks, b, c)
  {
  }

  lemma AllWorkNone(saveWorks: nat -> bool, n: nat)
    ensures AllWork(saveWorks, n, n)
  {
  }

  /** The platform: what it has saved, model by model, and whether its n-th save succeeds. */
  class Platform {
    var saved: Saves
    var attempts: nat
    const saveWorks: nat -> bool

    constructor (saveWorks: nat -> bool)
      ensures this.saveWorks == saveWorks && saved == map[] && attempts == 0
    {
      this.saveWorks, saved, attempts := saveWorks, map[], 0;
    }

    method BatchSave(records: seq<Record>, model: string) returns (ok: bool)
      modifies this
      ensures attempts == old(attempts) + 1 && (ok <==> AllWork(saveWorks, old(attempts), attempts))
      ensures Grown(old(saved), saved, model, if ok then records else [])
    {
      ok := saveWorks(attempts);
      attempts := attempts + 1;
      if ok { saved := saved[model := SavedIn(saved, model) + records]; }
    }
  }

  class Syncer {
    const platform: Platform

    constructor (platform: Platform)
      ensures this.platform == platform
    {
      this.platform := platform;
    }

    /** saveRecords: in chunks of 200; if a chunk fails the chunks before it stay saved. */
    method SaveRecords(model: string, records: seq<Record>) returns (ok: bool, ghost done: nat)
      modifies platform
      ensures done <= |records| && (ok ==> done == |records|)
      ensures Grown(old(platform.saved), platform.saved, model, records[..done])
      ensures old(platform.attempts) <= platform.attempts
      ensures ok <==> AllWork(platform.saveWorks, old(platform.attempts), platform.attempts)
      ensures ok ==> platform.attempts == old(platform.attempts) + (|records| + 199) / 200
    {
      AllWorkNone(platform.saveWorks, platform.attempts);
      GrownNone(platform.saved, model);
      hide Grown, AllWork;
      done := 0;
      var i := 0;
      while i < |records|
        invariant done == if i <= |records| then i else |records|
        invariant i % 200 == 0 && platform.attempts == old(platform.attempts) + i / 200 && (i == 0 || i - 200 < |records|)
        invariant old(platform.attempts) <= platform.attempts
        invariant AllWork(platform.saveWorks, old(platform.attempts), platform.attempts)
        invariant Grown(old(platform.saved), platform.saved, model, records[..done])
      {
        var end := if i + BATCH_SAVE_CHUNK <= |records| then i + BATCH_SAVE_CHUNK else |records|;
        ghost var tried, before := platform.attempts, platform.saved;
        ok := platform.BatchSave(records[i..end], model);
        AllWorkJoins(platform.saveWorks, old(platform.attempts), tried, platform.attempts);
        GrownJoins(old(platform.saved), before, platform.saved, model, records[..i], if ok then records[i..end] else []);
        assert records[..i] + [] == records[..i] && records[..i] + records[i..end] == records[..end];
        if !ok { return; }
        done := end;
        i := i + BATCH_SAVE_CHUNK;
      }
      ok := true;
    }

    /** syncEntity: it asks for what changed since the whole second of its stamp, oldest first, or
        without a stamp for the newest; all it saves is a prefix of what it reads; it ends without an error exactly if
        reading does and every save works, and then it has saved all it read, and the state advances
        to the latest stamp seen. */
    method SyncEntity(d: Definition, prev: Option<SyncState>, server: Query -> seq<Response>)
      returns (o: Outcome, ghost kept: seq<Record>)
      modifies platform
      ensures Grown(old(platform.saved), platform.saved, d.model, kept)
      ensures old(platform.attempts) <= platform.attempts
      ensures
        var query :=
          if prev.Some? && prev.value.lastSystemModstamp.Some?
          then Query(d.entityType, Some(prev.value.lastSystemModstamp.value / 1000 * 1000), true, d.incrementalLimit)
          else Query(d.entityType, None, false, d.backfillLimit);
        Ended(prev, server(query), o, kept) &&
        (o.Synced? <==> Read(server(query), 0).1 && AllWork(platform.saveWorks, old(platform.attempts), platform.attempts))
    {
      AllWorkNone(platform.saveWorks, platform.attempts);
      GrownNone(platform.saved, d.model);
      hide Read, AllWork, Grown, Latest;
      var since := Since(prev);
      var script := server(BuildQuery(d, since));
      var latest := since;
      var i, total := 0, 0;
      kept := [];
      ReadNothing(script);
      LatestNone(since);
      while true
        invariant i <= |script| && total == |kept|
        invariant Reading(script, i, kept)
        invariant old(platform.attempts) <= platform.attempts
        invariant AllWork(platform.saveWorks, old(platform.attempts), platform.attempts)
        invariant latest == Latest(kept, since)
        invariant Grown(old(platform.saved), platform.saved, d.model, kept)
        decreases |script| - i
      {
        if i == |script| {
          ReadFails(script, i, kept);
          return Threw("no reply"), kept;
        }
        var response := script[i];
        if response.HttpError? {
          ReadFails(script, i, kept);
          return Threw(response.message), kept;
        }
        ReadPage(script, i, kept);
        LatestAppend(kept, response.records, since);
        ghost var tried, saved, before := platform.attempts, platform.saved, kept;
        var ok, done := SaveRecords(d.model, response.records);
        AllWorkJoins(platform.saveWorks, old(platform.attempts), tried, platform.attempts);
        GrownJoins(old(platform.saved), saved, platform.saved, d.model, before, response.records[..done]);
        kept := before + response.records[..done];
        if !ok {
          PrefixOfMore(before, response.records, done, Read(script, 0).0);
          return Threw("save failed"), kept;
        }
        assert kept == before + response.records;
        total := total + |response.records|;
        latest := Latest(response.records, latest);
        if !response.more || total >= MAX_RECORDS_PER_ENTITY { break; }
        i := i + 1;
      }
      o := Synced(if latest.None? && prev.None? then None else Some(SyncState(OrElse(latest, since), true)));
    }

    /** One round of fetchData. */
    method SyncInto(states: map<string, SyncState>, d: Definition, previous: map<string, SyncState>, server: Query -> seq<Response>)
      returns (next: map<string, SyncState>, o: Outcome, ghost kept: seq<Record>)
      requires Get(states, d.entityType) == Get(previous, d.entityType)
      modifies platform
      ensures EntityEnded(previous, next, server, d, o, kept)
      ensures forall e :: e != d.entityType ==> Get(next, e) == Get(states, e)
      ensures Grown(old(platform.saved), platform.saved, d.model, kept)
      ensures old(platform.attempts) <= platform.attempts
      ensures o.Synced? <==>
                ReadsWell(previous, server, d) && AllWork(platform.saveWorks, old(platform.attempts), platform.attempts)
    {
      hide Ended, Read, AllWork, Grown;
      next := states;
      o, kept := SyncEntity(d, Get(previous, d.entityType), server);
      if o.Synced? && o.state.Some? {
        next := next[d.entityType := o.state.value];
      }
    }

    /** fetchData: every entity is synced from its own previous state; one that fails, or has
        nothing, keeps what it had. `ends` and `kepts` say how each sync ended and what it saved. */
    method FetchData(previous: map<string, SyncState>, server: Query -> seq<Response>)
      returns (next: map<string, SyncState>, ghost ends: seq<Outcome>, ghost kepts: seq<seq<Record>>)
      modifies platform
      ensures Fetched(|ENTITY_DEFINITIONS|, previous, next, server, ends, kepts)
      ensures AllSaved(|ENTITY_DEFINITIONS|, old(platform.saved), platform.saved, kepts)
      ensures AllWork(platform.saveWorks, old(platform.attempts), platform.attempts) ==>
                AllEndWell(|ENTITY_DEFINITIONS|, previous, server, ends)
    {
      next := previous;
      ends, kepts := [], [];
      AllWorkNone(platform.saveWorks, platform.attempts);
      hide EntityEnded, ReadsWell, AllWork, Grown, Fetched, AllSaved, AllEndWell;
      NothingFetched(previous, server, platform.saved);
      for k := 0 to |ENTITY_DEFINITIONS|
        invariant Fetched(k, previous, next, server, ends, kepts)
        invariant AllSaved(k, old(platform.saved), platform.saved, kepts)
        invariant old(platform.attempts) <= platform.attempts
        invariant AllWork(platform.saveWorks, old(platform.attempts), platform.attempts) ==> AllEndWell(k, previous, server, ends)
      {
        var d := ENTITY_DEFINITIONS[k];
        NotYet(k, previous, next, server, ends, kepts);
        ghost var tried, before, saved := platform.attempts, next, platform.saved;
        var o;
        ghost var kept;
        next, o, kept := SyncInto(next, d, previous, server);
        FetchedNext(k, previous, before, next, server, ends, kepts, o, kept);
        SavedNext(k, old(platform.saved), saved, platform.saved, kepts, kept);
        AllWorkJoins(platform.saveWorks, old(platform.attempts), tried, platform.attempts);
        if AllWork(platform.saveWorks, old(platform.attempts), platform.attempts) {
          EndsWellNext(k, previous, server, ends, o);
        }
        ends, kepts := ends + [o], kepts + [kept];
      }
    }
  }

  /** How the sync of one entity ended, and the state kept for it. */
  ghost predicate EntityEnded(previous: map<string, SyncState>, next: map<string, SyncState>, server: Query -> seq<Response>,
                              d: Definition, o: Outcome, kept: seq<Record>) {
    var prev := Get(previous, d.entityType);
    Get(next, d.entityType) == Kept(prev, o) && Ended(prev, Script(server, d, prev), o, kept)
  }

  /** The entity's pages can be read to the end. */
  ghost predicate ReadsWell(previous: map<string, SyncState>, server: Query -> seq<Response>, d: Definition) {
    Read(Script(server, d, Get(previous, d.entityType)), 0).1
  }

  /** The first `n` entities have been synced, and no other state was touched. */
  ghost predicate Fetched(n: nat, previous: map<string, SyncState>, next: map<string, SyncState>, server: Query -> seq<Response>,
                          ends: seq<Outcome>, kepts: seq<seq<Record>>) {
    n <= |ENTITY_DEFINITIONS| && |ends| == |kepts| == n &&
    (forall j :: 0 <= j < n ==> EntityEnded(previous, next, server, ENTITY_DEFINITIONS[j], ends[j], kepts[j])) &&
    (forall e :: (forall j :: 0 <= j < n ==> ENTITY_DEFINITIONS[j].entityType != e) ==> Get(next, e) == Get(previous, e))
  }

  /** What was added under each of the first `n` models, and nothing under any other. */
  ghost predicate AllSaved(n: nat, before: Saves, after: Saves, kepts: seq<seq<Record>>) {
    n <= |ENTITY_DEFINITIONS| && |kepts| == n &&
    (forall j :: 0 <= j < n ==>
       SavedIn(after, ENTITY_DEFINITIONS[j].model) == SavedIn(before, ENTITY_DEFINITIONS[j].model) + kepts[j]) &&
    (forall m :: (forall j :: 0 <= j < n ==> ENTITY_DEFINITIONS[j].model != m) ==> SavedIn(after, m) == SavedIn(before, m))
  }

  /** The syncs that end without an error are exactly those whose pages can be read to the end. */
  ghost predicate AllEndWell(n: nat, previous: map<string, SyncState>, server: Query -> seq<Response>, ends: seq<Outcome>) {
    n <= |ENTITY_DEFINITIONS| && |ends| == n &&
    forall j :: 0 <= j < n ==> (ends[j].Synced? <==> ReadsWell(previous, server, ENTITY_DEFINITIONS[j]))
  }

  lemma NothingFetched(previous: map<string, SyncState>, server: Query -> seq<Response>, saves: Saves)
    ensures Fetched(0, previous, previous, server, [], []) && AllSaved(0, saves, saves, []) && AllEndWell(0, previous, server, [])
  {
  }

  lemma NotYet(k: nat, previous: map<string, SyncState>, next: map<string, SyncState>, server: Query -> seq<Response>,
               ends: seq<Outcome>, kepts: seq<seq<Record>>)
    requires k < |ENTITY_DEFINITIONS| && Fetched(k, previous, next, server, ends, kepts)
    ensures Get(next, ENTITY_DEFINITIONS[k].entityType) == Get(previous, ENTITY_DEFINITIONS[k].entityType)
  {
    hide EntityEnded;
    DistinctEntities(k);
  }

  lemma FetchedNext(k: nat, previous: map<string, SyncState>, before: map<string, SyncState>, next: map<string, SyncState>,
                    server: Query -> seq<Response>, ends: seq<Outcome>, kepts: seq<seq<Record>>, o: Outcome, kept: seq<Record>)
    requires k < |ENTITY_DEFINITIONS| && Fetched(k, previous, before, server, ends, kepts)
    requires EntityEnded(previous, next, server, ENTITY_DEFINITIONS[k], o, kept)
    requires forall e :: e != ENTITY_DEFINITIONS[k].entityType ==> Get(next, e) == Get(before, e)
    ensures Fetched(k + 1, previous, next, server, ends + [o], kepts + [kept])
  {
    DistinctEntities(k);
    hide EntityEnded, Get;
    forall j | 0 <= j < k ensures EntityEnded(previous, next, server, ENTITY_DEFINITIONS[j], ends[j], kepts[j]) {
      EndedStays(previous, before, next, server, ENTITY_DEFINITIONS[j], ends[j], kepts[j]);
    }
  }

  lemma EndedStays(previous: map<string, SyncState>, before: map<string, SyncState>, next: map<string, SyncState>,
                   server: Query -> seq<Response>, d: Definition, o: Outcome, kept: seq<Record>)
    requires EntityEnded(previous, before, server, d, o, kept) && Get(next, d.entityType) == Get(before, d.entityType)
    ensures EntityEnded(previous, next, server, d, o, kept)
  {
  }

  lemma SavedNext(k: nat, start: Saves, before: Saves, after: Saves, kepts: seq<seq<Record>>, kept: seq<Record>)
    requires k < |ENTITY_DEFINITIONS| && AllSaved(k, start, before, kepts)
    requires Grown(before, after, ENTITY_DEFINITIONS[k].model, kept)
    ensures AllSaved(k + 1, start, after, kepts + [kept])
  {
    DistinctEntities(k);
  }

  lemma EndsWellNext(k: nat, previous: map<string, SyncState>, server: Query -> seq<Response>, ends: seq<Outcome>, o: Outcome)
    requires k < |ENTITY_DEFINITIONS| && AllEndWell(k, previous, server, ends)
    requires o.Synced? <==> ReadsWell(previous, server, ENTITY_DEFINITIONS[k])
    ensures AllEndWell(k + 1, previous, server, ends + [o])
  {
    hide ReadsWell;
  }

  function Get(states: map<string, SyncState>, e: string): Option<SyncState> {
    if e in states then Some(states[e]) else None
  }

  /** The state fetchData keeps for an entity. */
  function Kept(prev: Option<SyncState>, o: Outcome): Option<SyncState> {
    if o.Synced? && o.state.Some? then o.state else prev
  }

  lemma DistinctEntities(k: nat)
    requires k < |ENTITY_DEFINITIONS|
    ensures forall j :: 0 <= j < k ==> ENTITY_DEFINITIONS[j].entityType != ENTITY_DEFINITIONS[k].entityType
    ensures forall j :: 0 <= j < k ==> ENTITY_DEFINITIONS[j].model != ENTITY_DEFINITIONS[k].model
  {
  }

  /** How a sync over these replies may end, having saved `kept`. */
  ghost predicate Ended(prev: Option<SyncState>, script: seq<Response>, o: Outcome, kept: seq<Record>) {
    kept <= Read(script, 0).0 &&
    (o.Synced? ==> Read(script, 0).1 && kept == Read(script, 0).0 && o.state == NextState(prev, kept))
  }

  /** The loop stands at reply `i`, having read `kept`. */
  ghost predicate Reading(script: seq<Response>, i: nat, kept: seq<Record>) {
    i <= |script| &&
    Read(script, 0) == (kept + Read(script[i..], |kept|).0, Read(script[i..], |kept|).1)
  }

  // ---- What these functions mean ----------------------------------------------------------------

  /** The records of some pages, in order. */
  function AllRecords(pages: seq<Response>): seq<Record> {
    if pages == [] then []
    else AllRecords(pages[..|pages| - 1]) + (if pages[|pages| - 1].Page? then pages[|pages| - 1].records else [])
  }

  /** Pages are read while there is a next one and fewer than 1200 records have come. */
  ghost predicate GoesOnAfter(script: seq<Response>, n: nat)
    requires n < |script|
  {
    script[n].Page? && script[n].more && |AllRecords(script[..n + 1])| < 1200
  }

  /** Exactly what is read: if every page before page `n` has a successor and leaves room, and page `n`
      is the last or fills up, the records of all these pages; if an error stands there instead, or
      nothing, what came before, and the reading fails. */
  lemma ReadMeans(script: seq<Response>, n: nat)
    requires n <= |script| && forall i :: 0 <= i < n ==> GoesOnAfter(script, i)
    ensures n == |script| || script[n].HttpError? ==> Read(script, 0) == (AllRecords(script[..n]), false)
    ensures n < |script| && script[n].Page? && !GoesOnAfter(script, n) ==> Read(script, 0) == (AllRecords(script[..n + 1]), true)
  {
    assert script[..0] == [] && script[0..] == script;
    ReadFrom(script, 0, n);
    assert [] + Read(script, 0).0 == Read(script, 0).0;
  }

  lemma {:induction false} ReadFrom(script: seq<Response>, i: nat, n: nat)
    requires i <= n <= |script| && forall j :: 0 <= j < n ==> GoesOnAfter(script, j)
    ensures
      var before := AllRecords(script[..i]);
      var (rest, ok) := Read(script[i..], |before|);
      (n == |script| || script[n].HttpError? ==> before + rest == AllRecords(script[..n]) && !ok) &&
      (n < |script| && script[n].Page? && !GoesOnAfter(script, n) ==> before + rest == AllRecords(script[..n + 1]) && ok)
    decreases n - i
  {
    hide Read, AllRecords, GoesOnAfter;
    if i == n {
      ReadEnds(script, n);
    } else {
      ReadOn(script, i);
      ReadFrom(script, i + 1, n);
      var before, rest := AllRecords(script[..i]), Read(script[i + 1..], |AllRecords(script[..i + 1])|).0;
      Grouped(before, script[i].records, rest);
    }
  }

  lemma Grouped<A>(a: seq<A>, b: seq<A>, c: seq<A>)
    ensures (a + b) + c == a + (b + c)
  {
  }

  lemma ReadOn(script: seq<Response>, i: nat)
    requires i < |script| && GoesOnAfter(script, i)
    ensures
      var before, through := AllRecords(script[..i]), AllRecords(script[..i + 1]);
      var (rest, ok) := Read(script[i + 1..], |through|);
      script[i].Page? && through == before + script[i].records && Read(script[i..], |before|) == (script[i].records + rest, ok)
  {
    assert script[i..][0] == script[i] && script[i..][1..] == script[i + 1..];
    assert script[..i + 1][..i] == script[..i];
  }

  lemma ReadEnds(script: seq<Response>, n: nat)
    requires n <= |script|
    ensures
      var before := AllRecords(script[..n]);
      var (rest, ok) := Read(script[n..], |before|);
      (n == |script| || script[n].HttpError? ==> before + rest == before && !ok) &&
      (n < |script| && script[n].Page? && !GoesOnAfter(script, n) ==> before + rest == AllRecords(script[..n + 1]) && ok)
  {
    if n < |script| {
      assert script[n..][0] == script[n];
      assert script[..n + 1][..n] == script[..n];
    }
  }

  /** The stamp of a record: its SystemModstamp, else its LastModifiedDate. */
  predicate HasStamp(r: Record, t: nat) {
    r.systemModstamp == Some(t) || (r.systemModstamp == None && r.lastModified == Some(t))
  }

  /** The state after a sync without an error: none if there was none and no record has a stamp;
      otherwise the latest of the old stamp and those of the records, with the backfill done. */
  lemma NextStateMeans(prev: Option<SyncState>, records: seq<Record>)
    ensures
      var next := NextState(prev, records);
      (next.None? <==> prev.None? && forall r <- records :: r.systemModstamp.None? && r.lastModified.None?) &&
      (next.Some? ==> next.value.backfillCompleted) &&
      (next.Some? && next.value.lastSystemModstamp.Some? ==>
         var l := next.value.lastSystemModstamp.value;
         ((prev.Some? && prev.value.lastSystemModstamp == Some(l)) || exists r <- records :: HasStamp(r, l)) &&
         (prev.Some? && prev.value.lastSystemModstamp.Some? ==> prev.value.lastSystemModstamp.value <= l) &&
         (forall r, t: nat :: r in records && HasStamp(r, t) ==> t <= l)) &&
      (next.Some? && next.value.lastSystemModstamp.None? ==>
         prev.Some? && prev.value.lastSystemModstamp.None? && forall r <- records :: r.systemModstamp.None? && r.lastModified.None?)
  {
    LatestIsLatest(records, if prev.Some? then prev.value.lastSystemModstamp else None);
    hide Latest;
    forall r | r in records ensures (Stamp(r).None? <==> r.systemModstamp.None? && r.lastModified.None?) {
    }
    forall r, t: nat | r in records && HasStamp(r, t) ensures Stamp(r) == Some(t) {
    }
    forall r: Record | Stamp(r).Some? ensures HasStamp(r, Stamp(r).value) {
    }
  }

  lemma LatestNone(max: Option<nat>)
    ensures Latest([], max) == max
  {
  }

  lemma ReadNothing(script: seq<Response>)
    ensures Reading(script, 0, [])
  {
    assert script[0..] == script;
    assert [] + Read(script, 0).0 == Read(script, 0).0;
  }

  lemma ReadFails(script: seq<Response>, i: nat, kept: seq<Record>)
    requires Reading(script, i, kept) && (i < |script| ==> script[i].HttpError?)
    ensures Read(script, 0) == (kept, false)
  {
    assert kept + [] == kept;
  }

  lemma ReadPage(script: seq<Response>, i: nat, kept: seq<Record>)
    requires Reading(script, i, kept) && i < |script| && script[i].Page?
    ensures
      var page := script[i];
      var kept' := kept + page.records;
      if !page.more || |kept'| >= MAX_RECORDS_PER_ENTITY then Read(script, 0) == (kept', true)
      else Reading(script, i + 1, kept') && kept' <= Read(script, 0).0
  {
    var page, tail := script[i], script[i..];
    assert tail[0] == page && tail[1..] == script[i + 1..];
    var rest := Read(script[i + 1..], |kept| + |page.records|).0;
    assert kept + (page.records + rest) == (kept + page.records) + rest;
  }

  lemma PrefixOfMore(a: seq<Record>, b: seq<Record>, n: nat, all: seq<Record>)
    requires n <= |b| && a + b <= all
    ensures a + b[..n] <= all
  {
  }

  lemma {:induction false} LatestAppend(a: seq<Record>, b: seq<Record>, max: Option<nat>)
    ensures Latest(a + b, max) == Latest(b, Latest(a, max))
  {
    if a == [] {
      assert a + b == b;
    } else {
      assert (a + b)[1..] == a[1..] + b;
      LatestAppend(a[1..], b, Later(max, Stamp(a[0])));
    }
  }

  /** The new watermark is the old one or a stamp that was read, and at least as late as each. */
  lemma {:induction false} LatestIsLatest(records: seq<Record>, max: Option<nat>)
    ensures
      var l := Latest(records, max);
      && (l == max || exists r <- records :: Stamp(r) == l)
      && (max.Some? ==> l.Some? && max.value <= l.value)
      && (forall r <- records :: Stamp(r).Some? ==> l.Some? && Stamp(r).value <= l.value)
  {
    if records == [] {
    } else {
      LatestIsLatest(records[1..], Later(max, Stamp(records[0])));
    }
  }
}
