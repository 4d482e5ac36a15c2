/** Merging enrichment batches into an interpretive response (src/routes/interpret.ts): sources are
    deduplicated by URL while the numbers in citations are rewritten. Each batch is merged without
    interruption; batches come in any order. */
module Citations {
  import opened Wrappers

  datatype Source = Source(index: int, url: string, title: string)

  /** Citations are 1-based source numbers, of any value the model's answer may hold. */
  datatype Segment =
    | Context(title: string, citations: Option<seq<int>>)
    | Quote(citation: Option<int>)
    | Text(textCitations: Option<seq<int>>)
    | OtherSegment(kind: string)

  datatype Batch = Batch(key: string, sources: seq<Source>, segments: seq<Segment>)

  /** Position of the first source with this URL, or the length. */
  function FindUrl(sources: seq<Source>, url: string): (i: nat)
    ensures i <= |sources|
    ensures i < |sources| ==> sources[i].url == url
    ensures forall j :: 0 <= j < i ==> sources[j].url != url
  {
    if sources == [] then 0
    else if sources[0].url == url then 0
    else 1 + FindUrl(sources[1..], url)
  }

  /** One source of a batch: found, or appended with the next number. */
  function Added(sources: seq<Source>, s: Source): seq<Source> {
    if FindUrl(sources, s.url) < |sources| then sources else sources + [s.(index := |sources| + 1)]
  }

  function AddAll(sources: seq<Source>, more: seq<Source>): seq<Source>
    decreases more
  {
    if more == [] then sources else AddAll(Added(sources, more[0]), more[1..])
  }

  /** The number a local citation gets: that of the source with the same URL; a number that is not
      one of the batch's stays. */
  function Renumbered(merged: seq<Source>, batch: seq<Source>, local: int): int {
    if 1 <= local <= |batch| then FindUrl(merged, batch[local - 1].url) + 1 else local
  }

  /** Title handling is left to the caller (`tag`): the title does not matter to citations. */
  function Rewritten(merged: seq<Source>, b: Batch, tag: (string, string) -> string, segment: Segment): Segment {
    match segment
    case Context(title, cs) =>
      Context(tag(title, b.key),
              if cs.Some? then Some(seq(|cs.value|, i requires 0 <= i < |cs.value| => Renumbered(merged, b.sources, cs.value[i])))
              else None)
    case Quote(c) => Quote(if c.Some? then Some(Renumbered(merged, b.sources, c.value)) else None)
    case _ => segment
  }

  datatype Merged = Merged(sources: seq<Source>, segments: seq<Segment>)

  function MergeBatch(m: Merged, b: Batch, tag: (string, string) -> string): Merged {
    var sources := AddAll(m.sources, b.sources);
    Merged(sources,
           m.segments + seq(|b.segments|, i requires 0 <= i < |b.segments| => Rewritten(sources, b, tag, b.segments[i])))
  }

  function MergeBatches(m: Merged, bs: seq<Batch>, tag: (string, string) -> string): Merged
    decreases bs
  {
    if bs == [] then m else MergeBatches(MergeBatch(m, bs[0], tag), bs[1..], tag)
  }

  /** The final clean-up: keep the first source of each URL, number by position. */
  function FirstOfEach(sources: seq<Source>): seq<Source> {
    if sources == [] then []
    else
      var front, last := sources[..|sources| - 1], sources[|sources| - 1];
      if FindUrl(front, last.url) < |front| then FirstOfEach(front) else FirstOfEach(front) + [last]
  }

  function Reindexed(sources: seq<Source>): seq<Source> {
    seq(|sources|, i requires 0 <= i < |sources| => sources[i].(index := i + 1))
  }

  function CleanedUp(sources: seq<Source>): seq<Source> {
    Reindexed(FirstOfEach(sources))
  }

  /** The response object that the enrichment callbacks mutate. */
  class Response {
    var sources: seq<Source>
    var segments: seq<Segment>

    constructor (sources: seq<Source>, segments: seq<Segment>)
      ensures this.sources == sources && this.segments == segments
    {
      this.sources, this.segments := sources, segments;
    }

    /** The citations of one segment through the index map. */
    method Rewrite(segment: Segment, b: Batch, tag: (string, string) -> string, localToGlobalIndex: map<int, int>,
                   ghost merged: seq<Source>) returns (rewritten: Segment)
      requires Tracks(localToGlobalIndex, merged, b.sources)
      ensures rewritten == Rewritten(merged, b, tag, segment)
    {
      hide FindUrl;
      rewritten := segment;
      match segment {
      case Context(title, cs) =>
        var citations := None;
        if cs.Some? {
          citations := Some(seq(|cs.value|, i requires 0 <= i < |cs.value| =>
            if cs.value[i] in localToGlobalIndex then localToGlobalIndex[cs.value[i]] else cs.value[i]));
          assert citations.value == seq(|cs.value|, i requires 0 <= i < |cs.value| => Renumbered(merged, b.sources, cs.value[i]));
        }
        rewritten := Context(tag(title, b.key), citations);
      case Quote(c) =>
        if c.Some? && c.value in localToGlobalIndex { rewritten := Quote(Some(localToGlobalIndex[c.value])); }
      case _ =>
      }
    }

    /** The sources of a batch, remembering where each went. */
    method MergeSources(b: Batch) returns (localToGlobalIndex: map<int, int>)
      modifies this`sources
      ensures sources == AddAll(old(sources), b.sources)
      ensures Tracks(localToGlobalIndex, sources, b.sources)
    {
      localToGlobalIndex := map[];
      ghost var start := sources;
      MergingStarts(sources, b.sources);
      hide FindUrl, Added, AddAll, Tracks, Merging;
      for idx := 0 to |b.sources|
        invariant Merging(localToGlobalIndex, sources, start, b.sources, idx)
      {
        MergingGoesOn(localToGlobalIndex, sources, start, b.sources, idx);
        var at := AddSource(b.sources[idx]);
        localToGlobalIndex := localToGlobalIndex[idx + 1 := at + 1];
      }
      MergingEnds(localToGlobalIndex, sources, start, b.sources);
    }

    /** One source: found, or pushed with the next number; in either case its position. */
    method AddSource(source: Source) returns (at: nat)
      modifies this`sources
      ensures sources == Added(old(sources), source) && at == FindUrl(old(sources), source.url)
    {
      at := FindUrl(sources, source.url);
      if at == |sources| { sources := sources + [source.(index := |sources| + 1)]; }
    }

    /** One enrichment callback: sources first, then segments. */
    method Merge(b: Batch, tag: (string, string) -> string)
      modifies this
      ensures Merged(sources, segments) == MergeBatch(Merged(old(sources), old(segments)), b, tag)
    {
      hide FindUrl, Rewritten, Tracks, AddAll;
      var localToGlobalIndex := MergeSources(b);
      for k := 0 to |b.segments|
        invariant sources == AddAll(old(sources), b.sources)
        invariant |segments| == |old(segments)| + k && old(segments) <= segments
        invariant forall j :: 0 <= j < k ==> segments[|old(segments)| + j] == Rewritten(sources, b, tag, b.segments[j])
      {
        var segment := Rewrite(b.segments[k], b, tag, localToGlobalIndex, sources);
        segments := segments + [segment];
      }
      assert segments == MergeBatch(Merged(old(sources), old(segments)), b, tag).segments;
    }

    /** The filter and renumbering before the response is sent: what is left has distinct URLs,
        numbered by position, and has lost no URL. */
    method CleanUp()
      modifies this`sources
      ensures sources == CleanedUp(old(sources))
      ensures UrlDistinct(sources) && Numbered(sources)
      ensures forall s <- old(sources) :: FindUrl(sources, s.url) < |sources|
    {
      hide FindUrl;
      var kept := [];
      for i := 0 to |sources|
        invariant sources == old(sources)
        invariant kept == FirstOfEach(sources[..i])
      {
        FirstInPrefix(sources, i);
        assert sources[..i + 1][..i] == sources[..i];
        if FindUrl(sources, sources[i].url) == i { kept := kept + [sources[i]]; }
      }
      assert sources[..|sources|] == sources;
      sources := seq(|kept|, i requires 0 <= i < |kept| => kept[i].(index := i + 1));
      CleanUpMeaning(old(sources));
    }
  }

  /** The index map after the sources `done`: each local number with the global number of its URL. */
  ghost predicate Tracks(index: map<int, int>, sources: seq<Source>, done: seq<Source>) {
    (forall n :: n in index <==> 1 <= n <= |done|) &&
    (forall n <- index :: index[n] == FindUrl(sources, done[n - 1].url) + 1 <= |sources|)
  }

  /** The loop over a batch's sources stands at source `k`. */
  ghost predicate Merging(index: map<int, int>, sources: seq<Source>, start: seq<Source>, batch: seq<Source>, k: nat) {
    k <= |batch| && AddAll(sources, batch[k..]) == AddAll(start, batch) && Tracks(index, sources, batch[..k])
  }

  lemma MergingStarts(sources: seq<Source>, batch: seq<Source>)
    ensures Merging(map[], sources, sources, batch, 0)
  {
    assert batch[0..] == batch && batch[..0] == [];
  }

  lemma MergingGoesOn(index: map<int, int>, sources: seq<Source>, start: seq<Source>, batch: seq<Source>, k: nat)
    requires k < |batch| && Merging(index, sources, start, batch, k)
    ensures Merging(index[k + 1 := FindUrl(sources, batch[k].url) + 1], Added(sources, batch[k]), start, batch, k + 1)
  {
    hide FindUrl, Added, Tracks;
    TracksAppend(index, sources, batch, k);
    assert batch[k..][0] == batch[k] && batch[k..][1..] == batch[k + 1..];
  }

  lemma MergingEnds(index: map<int, int>, sources: seq<Source>, start: seq<Source>, batch: seq<Source>)
    requires Merging(index, sources, start, batch, |batch|)
    ensures sources == AddAll(start, batch) && Tracks(index, sources, batch)
  {
    hide Tracks;
    assert batch[..|batch|] == batch && batch[|batch|..] == [];
  }

  lemma TracksAppend(index: map<int, int>, sources: seq<Source>, batch: seq<Source>, k: nat)
    requires k < |batch| && Tracks(index, sources, batch[..k])
    ensures
      var s, f := batch[k], FindUrl(sources, batch[k].url);
      Tracks(index[k + 1 := f + 1], Added(sources, s), batch[..k + 1]) &&
      (f == |sources| ==> |Added(sources, s)| == f + 1)
  {
    hide FindUrl;
    var s, f := batch[k], FindUrl(sources, batch[k].url);
    var index', sources' := index[k + 1 := f + 1], Added(sources, s);
    AppendKeepsUrls(sources, s.(index := |sources| + 1));
    forall n | n in index' ensures 1 <= n <= k + 1 && index'[n] == FindUrl(sources', batch[..k + 1][n - 1].url) + 1 <= |sources'| {
      if n <= k {
        assert n in index && batch[..k][n - 1] == batch[..k + 1][n - 1];
      }
    }
  }

  lemma FindUrlUnique(sources: seq<Source>, url: string, i: nat)
    requires i < |sources| && sources[i].url == url && forall j :: 0 <= j < i ==> sources[j].url != url
    ensures FindUrl(sources, url) == i
  {
  }

  lemma FindUrlDistinct(sources: seq<Source>, url: string, i: nat)
    requires UrlDistinct(sources) && i < |sources| && sources[i].url == url
    ensures FindUrl(sources, url) == i
  {
    FindUrlUnique(sources, url, i);
  }

  lemma AppendKeepsUrls(sources: seq<Source>, s: Source)
    ensures forall url :: FindUrl(sources, url) < |sources| ==> FindUrl(sources + [s], url) == FindUrl(sources, url)
    ensures FindUrl(sources, s.url) == |sources| ==> FindUrl(sources + [s], s.url) == |sources|
  {
    forall url | FindUrl(sources, url) < |sources| ensures FindUrl(sources + [s], url) == FindUrl(sources, url) {
      FindUrlUnique(sources + [s], url, FindUrl(sources, url));
    }
    if FindUrl(sources, s.url) == |sources| { FindUrlUnique(sources + [s], s.url, |sources|); }
  }

  // ---- The merged sources -------------------------------------------------------------------------

  ghost predicate UrlDistinct(sources: seq<Source>) {
    forall i, j :: 0 <= i < j < |sources| ==> sources[i].url != sources[j].url
  }

  ghost predicate Numbered(sources: seq<Source>) {
    forall i :: 0 <= i < |sources| ==> sources[i].index == i + 1
  }

  lemma {:induction false} AddAllGrows(sources: seq<Source>, more: seq<Source>)
    ensures sources <= AddAll(sources, more)
    ensures UrlDistinct(sources) ==> UrlDistinct(AddAll(sources, more))
    ensures Numbered(sources) ==> Numbered(AddAll(sources, more))
    decreases more
  {
    hide FindUrl;
    if more == [] {
    } else {
      AddAllGrows(Added(sources, more[0]), more[1..]);
    }
  }

  /** Every URL added is found. */
  lemma {:induction false} AddAllCovers(sources: seq<Source>, more: seq<Source>)
    ensures forall s <- more :: FindUrl(AddAll(sources, more), s.url) < |AddAll(sources, more)|
    decreases more
  {
    hide FindUrl;
    if more == [] {
    } else {
      var next, all := Added(sources, more[0]), AddAll(sources, more);
      AppendKeepsUrls(sources, more[0].(index := |sources| + 1));
      AddAllGrows(next, more[1..]);
      AddAllCovers(next, more[1..]);
      var i := FindUrl(next, more[0].url);
      assert all[i] == next[i];
    }
  }

  /** New sources are only appended, each with a URL not seen before. */
  lemma {:induction false} MergeGrows(m: Merged, bs: seq<Batch>, tag: (string, string) -> string)
    ensures
      var m' := MergeBatches(m, bs, tag);
      m.sources <= m'.sources && m.segments <= m'.segments &&
      (UrlDistinct(m.sources) ==> UrlDistinct(m'.sources)) && (Numbered(m.sources) ==> Numbered(m'.sources))
    decreases bs
  {
    if bs == [] {
    } else {
      AddAllGrows(m.sources, bs[0].sources);
      MergeGrows(MergeBatch(m, bs[0], tag), bs[1..], tag);
    }
  }

  lemma PrefixDistinct(a: seq<Source>, b: seq<Source>)
    requires a <= b && UrlDistinct(b)
    ensures UrlDistinct(a)
  {
  }

  /** The clean-up keeps no URL twice, */
  lemma {:induction false} FirstOfEachDistinct(sources: seq<Source>)
    ensures UrlDistinct(FirstOfEach(sources))
    ensures forall s <- FirstOfEach(sources) :: s in sources
  {
    if sources == [] {
    } else {
      var front, last := sources[..|sources| - 1], sources[|sources| - 1];
      FirstOfEachDistinct(front);
      if FindUrl(front, last.url) == |front| {
        forall s | s in FirstOfEach(front) ensures s.url != last.url {
          var j :| 0 <= j < |front| && front[j] == s;
        }
      }
    }
  }

  /** and keeps each URL once. */
  lemma {:induction false} FirstOfEachCovers(sources: seq<Source>, url: string)
    requires FindUrl(sources, url) < |sources|
    ensures FindUrl(FirstOfEach(sources), url) < |FirstOfEach(sources)|
  {
    var front, last := sources[..|sources| - 1], sources[|sources| - 1];
    var i := FindUrl(sources, url);
    AppendKeepsUrls(FirstOfEach(front), last);
    if i < |front| {
      assert front[i] == sources[i];
      FirstOfEachCovers(front, url);
    } else if FindUrl(front, url) < |front| {
      FirstOfEachCovers(front, url);
    }
  }

  /** `findIndex` over the whole list finds a position exactly if no earlier source has its URL. */
  lemma FirstInPrefix(sources: seq<Source>, i: nat)
    requires i < |sources|
    ensures FindUrl(sources, sources[i].url) == i <==> FindUrl(sources[..i], sources[i].url) == i
  {
    var url := sources[i].url;
    if FindUrl(sources[..i], url) == i {
      assert forall j :: 0 <= j < i ==> sources[j].url == sources[..i][j].url;
      FindUrlUnique(sources, url, i);
    } else {
      var j := FindUrl(sources[..i], url);
      assert sources[j] == sources[..i][j];
    }
  }

  lemma CleanUpMeaning(sources: seq<Source>)
    ensures UrlDistinct(CleanedUp(sources)) && Numbered(CleanedUp(sources))
    ensures forall s <- sources :: FindUrl(CleanedUp(sources), s.url) < |CleanedUp(sources)|
  {
    hide FindUrl, UrlDistinct, Numbered, FirstOfEach;
    FirstOfEachDistinct(sources);
    ReindexedKeeps(FirstOfEach(sources));
    forall s | s in sources ensures FindUrl(CleanedUp(sources), s.url) < |CleanedUp(sources)| {
      assert FindUrl(sources, s.url) < |sources|;
      FirstOfEachCovers(sources, s.url);
      var first := FirstOfEach(sources);
      assert CleanedUp(sources)[FindUrl(first, s.url)].url == s.url;
    }
  }

  /** It drops something exactly if two sources share a URL. */
  lemma {:induction false} FirstOfEachLength(sources: seq<Source>)
    ensures |FirstOfEach(sources)| <= |sources|
    ensures if UrlDistinct(sources) then FirstOfEach(sources) == sources else |FirstOfEach(sources)| < |sources|
  {
    if sources == [] {
    } else {
      var front, last := sources[..|sources| - 1], sources[|sources| - 1];
      assert sources == front + [last];
      FirstOfEachLength(front);
      DistinctSnoc(front, last);
    }
  }

  lemma DistinctSnoc(front: seq<Source>, last: Source)
    ensures UrlDistinct(front + [last]) <==> UrlDistinct(front) && FindUrl(front, last.url) == |front|
  {
    var all := front + [last];
    assert all[|front|] == last;
    if UrlDistinct(all) {
      PrefixDistinct(front, all);
      assert forall i :: 0 <= i < |front| ==> all[i].url != all[|front|].url;
      assert forall i :: 0 <= i < |front| ==> all[i] == front[i];
    }
  }

  lemma ReindexedKeeps(sources: seq<Source>)
    ensures |Reindexed(sources)| == |sources| && Numbered(Reindexed(sources))
    ensures UrlDistinct(sources) ==> UrlDistinct(Reindexed(sources))
    ensures Numbered(sources) ==> Reindexed(sources) == sources
  {
  }

  /** The final clean-up changes nothing exactly if the base response's sources have distinct URLs,
      whatever was merged, in whatever order. */
  lemma CleanUpIsIdentityExactly(base: Merged, bs: seq<Batch>, tag: (string, string) -> string)
    requires Numbered(base.sources)
    ensures
      var sources := MergeBatches(base, bs, tag).sources;
      Numbered(sources) && UrlDistinct(CleanedUp(sources)) && Numbered(CleanedUp(sources)) &&
      (CleanedUp(sources) == sources <==> UrlDistinct(base.sources))
  {
    hide MergeBatches, FirstOfEach, Reindexed, UrlDistinct, Numbered;
    var sources := MergeBatches(base, bs, tag).sources;
    MergeGrows(base, bs, tag);
    FirstOfEachDistinct(sources);
    FirstOfEachLength(sources);
    ReindexedKeeps(FirstOfEach(sources));
    if UrlDistinct(sources) { PrefixDistinct(base.sources, sources); }
  }

  // ---- Citations ------------------------------------------------------------------------------------

  /** Number `n` leads to the source with this URL. */
  ghost predicate LeadsTo(sources: seq<Source>, n: int, url: string) {
    1 <= n <= |sources| && sources[n - 1].url == url
  }

  /** Number `n` leads to the first source with this URL. */
  ghost predicate LeadsFirst(sources: seq<Source>, n: int, url: string) {
    LeadsTo(sources, n, url) && forall j :: 0 <= j < n - 1 ==> sources[j].url != url
  }

  /** The rewritten segment's citations lead where the batch's own led: every in-range number of a
      context or quote to the first source with the same URL. */
  ghost predicate CitesAlike(sources: seq<Source>, b: Batch, original: Segment, rewritten: Segment) {
    match original
    case Context(_, cs) =>
      rewritten.Context? && rewritten.citations.Some? == cs.Some? &&
      (cs.Some? ==>
         |rewritten.citations.value| == |cs.value| &&
         forall i :: 0 <= i < |cs.value| && 1 <= cs.value[i] <= |b.sources| ==>
           LeadsFirst(sources, rewritten.citations.value[i], b.sources[cs.value[i] - 1].url))
    case Quote(c) =>
      rewritten.Quote? && rewritten.citation.Some? == c.Some? &&
      (c.Some? && 1 <= c.value <= |b.sources| ==> LeadsFirst(sources, rewritten.citation.value, b.sources[c.value - 1].url))
    case _ => rewritten == original
  }

  lemma RewrittenCitesAlike(merged: seq<Source>, b: Batch, tag: (string, string) -> string, segment: Segment)
    requires forall s <- b.sources :: FindUrl(merged, s.url) < |merged|
    ensures CitesAlike(merged, b, segment, Rewritten(merged, b, tag, segment))
  {
    hide FindUrl, Renumbered, LeadsFirst;
    forall n: int | 1 <= n <= |b.sources|
      ensures LeadsFirst(merged, Renumbered(merged, b.sources, n), b.sources[n - 1].url)
    {
      RenumberedLeads(merged, b.sources, n);
    }
  }

  lemma RenumberedLeads(merged: seq<Source>, batch: seq<Source>, n: nat)
    requires 1 <= n <= |batch| && forall s <- batch :: FindUrl(merged, s.url) < |merged|
    ensures LeadsFirst(merged, Renumbered(merged, batch, n), batch[n - 1].url)
  {
    assert batch[n - 1] in batch;
  }

  lemma CitesAlikeGrows(a: seq<Source>, c: seq<Source>, b: Batch, original: Segment, rewritten: Segment)
    requires a <= c && CitesAlike(a, b, original, rewritten)
    ensures CitesAlike(c, b, original, rewritten)
  {
  }

  /** Where the segments of batch `k` start in the merged response. */
  function SegmentStart(m: Merged, bs: seq<Batch>, k: nat): nat
    requires k <= |bs|
  {
    if k == 0 then |m.segments| else SegmentStart(m, bs, k - 1) + |bs[k - 1].segments|
  }

  lemma {:induction false} SegmentStartTail(m: Merged, bs: seq<Batch>, k: nat, tag: (string, string) -> string)
    requires 0 < k <= |bs|
    ensures SegmentStart(m, bs, k) == SegmentStart(MergeBatch(m, bs[0], tag), bs[1..], k - 1)
  {
    if k > 1 {
      SegmentStartTail(m, bs, k - 1, tag);
      assert bs[k - 1] == bs[1..][k - 2];
    } else {
      assert SegmentStart(m, bs, 1) == SegmentStart(m, bs, 0) + |bs[0].segments|;
    }
  }

  /** The batch just merged cites what it cited. */
  lemma BatchCitesAlike(m: Merged, b: Batch, tag: (string, string) -> string, i: nat)
    requires i < |b.segments|
    ensures
      var m1 := MergeBatch(m, b, tag);
      |m.segments| + i < |m1.segments| && CitesAlike(m1.sources, b, b.segments[i], m1.segments[|m.segments| + i])
  {
    AddAllCovers(m.sources, b.sources);
    RewrittenCitesAlike(AddAll(m.sources, b.sources), b, tag, b.segments[i]);
  }

  /** Merging keeps every batch's citations: segment `i` of batch `k` is in the merged response and
      cites, among all merged sources, what its batch cited. */
  lemma {:induction false} MergeCitesAlike(m: Merged, bs: seq<Batch>, tag: (string, string) -> string, k: nat, i: nat)
    requires k < |bs| && i < |bs[k].segments|
    ensures
      var m' := MergeBatches(m, bs, tag);
      var at := SegmentStart(m, bs, k) + i;
      at < |m'.segments| && CitesAlike(m'.sources, bs[k], bs[k].segments[i], m'.segments[at])
    decreases bs
  {
    var m1 := MergeBatch(m, bs[0], tag);
    if k == 0 {
      var m' := MergeBatches(m1, bs[1..], tag);
      MergeGrows(m1, bs[1..], tag);
      BatchCitesAlike(m, bs[0], tag, i);
      CitesAlikeGrows(m1.sources, m'.sources, bs[0], bs[0].segments[i], m1.segments[|m.segments| + i]);
    } else {
      MergeCitesAlike(m1, bs[1..], tag, k - 1, i);
      SegmentStartTail(m, bs, k, tag);
      assert bs[1..][k - 1] == bs[k];
    }
  }

  /** Citation preservation. If the base sources have distinct URLs and are numbered by position,
      then after any batches in any order and the final clean-up the sources still are, the base
      sources and segments are untouched, and every in-range citation of a context or quote leads to
      the URL its batch cited. */
  lemma CitationsPreserved(base: Merged, bs: seq<Batch>, tag: (string, string) -> string, k: nat, i: nat)
    requires UrlDistinct(base.sources) && Numbered(base.sources)
    requires k < |bs| && i < |bs[k].segments|
    ensures
      var m := MergeBatches(base, bs, tag);
      var final, at := CleanedUp(m.sources), SegmentStart(base, bs, k) + i;
      UrlDistinct(final) && Numbered(final) && base.sources <= final && base.segments <= m.segments &&
      at < |m.segments| && CitesAlike(final, bs[k], bs[k].segments[i], m.segments[at])
  {
    CleanUpIsIdentityExactly(base, bs, tag);
    MergeGrows(base, bs, tag);
    MergeCitesAlike(base, bs, tag, k, i);
  }

  /** Without distinct base URLs, exactly which numbers survive: after the clean-up, number `n` still
      leads to the URL it led to before if and only if the first `n` sources have distinct URLs. */
  lemma NumberSurvivesExactly(sources: seq<Source>, n: nat)
    requires 1 <= n <= |sources|
    ensures LeadsTo(CleanedUp(sources), n, sources[n - 1].url) <==> UrlDistinct(sources[..n])
  {
    FirstOfEachPrefix(sources, n);
    FirstOfEachDistinct(sources);
    FirstOfEachLength(sources[..n]);
    assert sources[..n][n - 1] == sources[n - 1];
    if !UrlDistinct(sources[..n]) {
      var url, head := sources[n - 1].url, FirstOfEach(sources[..n]);
      FindUrlUpTo(sources[..n], n - 1);
      FirstOfEachCovers(sources[..n], url);
      NotTwice(FirstOfEach(sources), head, FindUrl(head, url), n - 1);
    }
  }

  /** In a list of distinct URLs, one found early is not found later. */
  lemma NotTwice(sources: seq<Source>, head: seq<Source>, j: nat, later: nat)
    requires head <= sources && UrlDistinct(sources) && j < |head| && j < later
    ensures !LeadsTo(Reindexed(sources), later + 1, head[j].url)
  {
    assert sources[j] == head[j];
  }

  lemma FindUrlUpTo(sources: seq<Source>, i: nat)
    requires i < |sources|
    ensures FindUrl(sources, sources[i].url) <= i
  {
  }

  lemma {:induction false} FirstOfEachPrefix(sources: seq<Source>, n: nat)
    requires n <= |sources|
    ensures FirstOfEach(sources[..n]) <= FirstOfEach(sources)
  {
    if n < |sources| {
      var front := sources[..|sources| - 1];
      FirstOfEachPrefix(front, n);
      assert front[..n] == sources[..n];
    } else {
      assert sources[..n] == sources;
    }
  }

  // ---- Text segments ------------------------------------------------------------------------------

  /** The sources of the batches, one batch after another. */
  function AllSources(bs: seq<Batch>): seq<Source> {
    if bs == [] then [] else bs[0].sources + AllSources(bs[1..])
  }

  lemma {:induction false} AddAllAppend(sources: seq<Source>, a: seq<Source>, b: seq<Source>)
    ensures AddAll(sources, a + b) == AddAll(AddAll(sources, a), b)
    decreases a
  {
    if a == [] {
      assert a + b == b;
    } else {
      assert (a + b)[0] == a[0] && (a + b)[1..] == a[1..] + b;
      AddAllAppend(Added(sources, a[0]), a[1..], b);
    }
  }

  lemma {:induction false} MergedSources(m: Merged, bs: seq<Batch>, tag: (string, string) -> string)
    ensures MergeBatches(m, bs, tag).sources == AddAll(m.sources, AllSources(bs))
    decreases bs
  {
    if bs == [] {
    } else {
      AddAllAppend(m.sources, bs[0].sources, AllSources(bs[1..]));
      MergedSources(MergeBatch(m, bs[0], tag), bs[1..], tag);
    }
  }

  ghost predicate HasUrl(sources: seq<Source>, url: string) {
    FindUrl(sources, url) < |sources|
  }

  /** The URLs that `more` brings and `base` does not have. */
  ghost function NewUrls(base: seq<Source>, more: seq<Source>): set<string> {
    set s | s in more && !HasUrl(base, s.url) :: s.url
  }

  /** Merging adds one source per new URL and no other. */
  lemma {:induction false} AddAllCount(base: seq<Source>, more: seq<Source>)
    ensures |AddAll(base, more)| == |base| + |NewUrls(base, more)|
    ensures forall url :: HasUrl(AddAll(base, more), url) <==> HasUrl(base, url) || url in NewUrls(base, more)
  {
    if more == [] {
      assert NewUrls(base, more) == {};
    } else {
      var front, last := more[..|more| - 1], more[|more| - 1];
      assert more == front + [last];
      hide AddAll, Added, NewUrls, HasUrl;
      AddAllCount(base, front);
      AddAllSnoc(base, front, last);
      NewUrlsSnoc(base, front, last);
      AddedUrls(AddAll(base, front), last);
      CountMore(NewUrls(base, front), last.url);
      forall url ensures HasUrl(AddAll(base, more), url) <==> HasUrl(base, url) || url in NewUrls(base, more) {
        assert HasUrl(AddAll(base, more), url) <==> HasUrl(AddAll(base, front), url) || url == last.url;
      }
    }
  }

  lemma CountMore(s: set<string>, x: string)
    ensures |s + {x}| == |s| + (if x in s then 0 else 1)
  {
    if x in s { assert s + {x} == s; }
  }

  lemma AddAllSnoc(base: seq<Source>, front: seq<Source>, last: Source)
    ensures AddAll(base, front + [last]) == Added(AddAll(base, front), last)
  {
    AddAllAppend(base, front, [last]);
    assert [last][1..] == [];
  }

  lemma NewUrlsSnoc(base: seq<Source>, front: seq<Source>, last: Source)
    ensures NewUrls(base, front + [last]) == NewUrls(base, front) + (if HasUrl(base, last.url) then {} else {last.url})
  {
  }

  lemma AddedUrls(sources: seq<Source>, s: Source)
    ensures |Added(sources, s)| == |sources| + (if HasUrl(sources, s.url) then 0 else 1)
    ensures forall url :: HasUrl(Added(sources, s), url) <==> HasUrl(sources, url) || url == s.url
  {
    hide FindUrl;
    var after := Added(sources, s);
    AppendKeepsUrls(sources, s.(index := |sources| + 1));
    forall url ensures HasUrl(after, url) <==> HasUrl(sources, url) || url == s.url {
      if HasUrl(after, url) {
        var i := FindUrl(after, url);
        assert i < |sources| ==> after[i] == sources[i];
      }
    }
  }

  /** Number `n` is where `url` goes when `more` is merged into `base`: at its place in the base, or
      after the base and the new URLs that come before it. */
  ghost predicate GoesTo(base: seq<Source>, more: seq<Source>, url: string, n: nat)
    requires n >= 1
  {
    if n <= |base| then base[n - 1].url == url
    else !HasUrl(base, url) && |base| + |NewUrls(base, more[..FindUrl(more, url)])| == n - 1
  }

  lemma LeadsToItsPlace(base: seq<Source>, more: seq<Source>, url: string, n: nat)
    requires UrlDistinct(base) && HasUrl(more, url) && n >= 1
    ensures LeadsTo(AddAll(base, more), n, url) <==> GoesTo(base, more, url, n)
  {
    hide FindUrl, NewUrls, AddAll;
    var merged := AddAll(base, more);
    AddAllGrows(base, more);
    if HasUrl(base, url) {
      assert merged[FindUrl(base, url)].url == url;
    } else {
      var at := NewPlace(base, more, url);
      if n <= |base| { assert merged[n - 1] == base[n - 1]; }
    }
  }

  /** A new URL goes after the base and the new URLs before it. */
  lemma NewPlace(base: seq<Source>, more: seq<Source>, url: string) returns (at: nat)
    requires HasUrl(more, url) && !HasUrl(base, url)
    ensures at == |base| + |NewUrls(base, more[..FindUrl(more, url)])| < |AddAll(base, more)|
    ensures AddAll(base, more)[at].url == url
  {
    var j := FindUrl(more, url);
    var head, s := more[..j], more[j];
    var before := AddAll(base, head);
    AddAllCount(base, head);
    assert url !in NewUrls(base, head);
    at := |before|;
    hide FindUrl, NewUrls, AddAll;
    ThroughOne(base, more, j);
    assert AddAll(base, more)[at] == Added(before, s)[at];
  }

  /** What is merged up to and with source `j` is a prefix of the result. */
  lemma ThroughOne(base: seq<Source>, more: seq<Source>, j: nat)
    requires j < |more|
    ensures Added(AddAll(base, more[..j]), more[j]) <= AddAll(base, more)
  {
    var head, s, tail := more[..j], more[j], more[j + 1..];
    var before := AddAll(base, head);
    AddAllAppend(base, head, [s] + tail);
    assert more == head + ([s] + tail);
    assert ([s] + tail)[0] == s && ([s] + tail)[1..] == tail;
    AddAllGrows(Added(before, s), tail);
  }

  lemma {:induction false} BatchAmongAll(bs: seq<Batch>, k: nat, n: nat)
    requires k < |bs| && 1 <= n <= |bs[k].sources|
    ensures HasUrl(AllSources(bs), bs[k].sources[n - 1].url)
  {
    hide FindUrl;
    var all, url := AllSources(bs), bs[k].sources[n - 1].url;
    if k == 0 {
      assert all[n - 1] == bs[0].sources[n - 1];
    } else {
      BatchAmongAll(bs[1..], k - 1, n);
      var i := FindUrl(AllSources(bs[1..]), url);
      assert all[|bs[0].sources| + i] == AllSources(bs[1..])[i];
    }
  }

  // ---- What the sources are -----------------------------------------------------------------------

  function Urls(sources: seq<Source>): set<string> {
    set i | 0 <= i < |sources| :: sources[i].url
  }

  /** The sources with a URL not seen before, each once, in order. */
  function Firsts(seen: set<string>, sources: seq<Source>): seq<Source>
    decreases sources
  {
    if sources == [] then []
    else if sources[0].url in seen then Firsts(seen, sources[1..])
    else [sources[0]] + Firsts(seen + {sources[0].url}, sources[1..])
  }

  /** The same URLs and titles, numbered on after `n`. */
  function NumberedFrom(sources: seq<Source>, n: nat): (r: seq<Source>)
    ensures |r| == |sources|
  {
    if sources == [] then [] else [Source(n + 1, sources[0].url, sources[0].title)] + NumberedFrom(sources[1..], n + 1)
  }

  lemma UrlsMean(sources: seq<Source>, url: string)
    ensures url in Urls(sources) <==> HasUrl(sources, url)
  {
    if HasUrl(sources, url) { assert sources[FindUrl(sources, url)].url == url; }
  }

  lemma UrlsCons(sources: seq<Source>)
    requires sources != []
    ensures Urls(sources) == {sources[0].url} + Urls(sources[1..])
  {
    var tail := sources[1..];
    forall url | url in Urls(sources) ensures url in {sources[0].url} + Urls(tail) {
      var i :| 0 <= i < |sources| && sources[i].url == url;
      if i > 0 { assert tail[i - 1] == sources[i]; }
    }
    forall url | url in Urls(tail) ensures url in Urls(sources) {
      var i :| 0 <= i < |tail| && tail[i].url == url;
      assert sources[i + 1] == tail[i];
    }
  }

  lemma UrlsSnoc(front: seq<Source>, last: Source)
    ensures Urls(front + [last]) == Urls(front) + {last.url}
  {
    var all := front + [last];
    assert all[|front|] == last && forall i :: 0 <= i < |front| ==> all[i] == front[i];
  }

  /** Merging: the base, then the first source of each new URL, in order, numbered on. */
  lemma {:induction false} AddAllIsFirsts(base: seq<Source>, more: seq<Source>)
    ensures AddAll(base, more) == base + NumberedFrom(Firsts(Urls(base), more), |base|)
    decreases more
  {
    hide FindUrl, Urls, NumberedFrom;
    if more == [] {
      NoneNumbered(|base|);
      assert base + [] == base;
    } else {
      var s := more[0];
      var next := Added(base, s);
      UrlsMean(base, s.url);
      AddAllIsFirsts(next, more[1..]);
      if s.url !in Urls(base) {
        var new_ := Source(|base| + 1, s.url, s.title);
        var rest := Firsts(Urls(base) + {s.url}, more[1..]);
        assert next == base + [new_];
        UrlsSnoc(base, new_);
        NumberedCons(s, rest, |base|);
        Regroup(base, [new_], NumberedFrom(rest, |base| + 1));
      }
    }
  }

  lemma NoneNumbered(n: nat)
    ensures NumberedFrom([], n) == []
  {
  }

  lemma Regroup<A>(a: seq<A>, b: seq<A>, c: seq<A>)
    ensures (a + b) + c == a + (b + c)
  {
  }

  lemma NumberedCons(s: Source, rest: seq<Source>, n: nat)
    ensures NumberedFrom([s] + rest, n) == [Source(n + 1, s.url, s.title)] + NumberedFrom(rest, n + 1)
  {
    assert ([s] + rest)[1..] == rest;
  }

  lemma {:induction false} NumberedAppend(a: seq<Source>, b: seq<Source>, n: nat)
    ensures NumberedFrom(a + b, n) == NumberedFrom(a, n) + NumberedFrom(b, n + |a|)
  {
    if a == [] {
      assert a + b == b;
    } else {
      assert (a + b)[1..] == a[1..] + b && (a + b)[0] == a[0];
      NumberedAppend(a[1..], b, n + 1);
    }
  }

  lemma {:induction false} NumberedTwice(sources: seq<Source>, m: nat, n: nat)
    ensures NumberedFrom(NumberedFrom(sources, m), n) == NumberedFrom(sources, n)
  {
    if sources == [] {
    } else {
      NumberedTwice(sources[1..], m + 1, n + 1);
    }
  }

  lemma {:induction false} FirstsAppend(seen: set<string>, a: seq<Source>, b: seq<Source>)
    ensures Firsts(seen, a + b) == Firsts(seen, a) + Firsts(seen + Urls(a), b)
    decreases a
  {
    if a == [] {
      assert a + b == b && Urls(a) == {} && seen + {} == seen;
    } else {
      assert (a + b)[1..] == a[1..] + b && (a + b)[0] == a[0];
      UrlsCons(a);
      var u := a[0].url;
      if u in seen {
        FirstsAppend(seen, a[1..], b);
        assert seen + Urls(a) == seen + Urls(a[1..]);
      } else {
        FirstsAppend(seen + {u}, a[1..], b);
        assert (seen + {u}) + Urls(a[1..]) == seen + Urls(a);
      }
    }
  }

  /** Sources that are first already stay. */
  lemma {:induction false} FirstsOfFirsts(seen: set<string>, sources: seq<Source>, n: nat)
    ensures
      var firsts := NumberedFrom(Firsts(seen, sources), n);
      Firsts(seen, firsts) == firsts
    decreases sources
  {
    if sources == [] {
    } else if sources[0].url in seen {
      FirstsOfFirsts(seen, sources[1..], n);
    } else {
      var s := sources[0];
      FirstsOfFirsts(seen + {s.url}, sources[1..], n + 1);
      NumberedCons(s, Firsts(seen + {s.url}, sources[1..]), n);
      var first, rest := Source(n + 1, s.url, s.title), NumberedFrom(Firsts(seen + {s.url}, sources[1..]), n + 1);
      assert ([first] + rest)[1..] == rest;
    }
  }

  lemma {:induction false} FirstOfEachIsFirsts(sources: seq<Source>)
    ensures FirstOfEach(sources) == Firsts({}, sources)
  {
    if sources == [] {
    } else {
      var front, last := sources[..|sources| - 1], sources[|sources| - 1];
      assert sources == front + [last];
      FirstOfEachIsFirsts(front);
      FirstsAppend({}, front, [last]);
      UrlsMean(front, last.url);
      assert {} + Urls(front) == Urls(front) && [last][1..] == [] && [last] + [] == [last];
    }
  }

  lemma {:induction false} ReindexedIsNumbered(sources: seq<Source>, n: nat)
    ensures forall i :: 0 <= i < |sources| ==> NumberedFrom(sources, n)[i] == sources[i].(index := n + i + 1)
  {
    if sources == [] {
    } else {
      ReindexedIsNumbered(sources[1..], n + 1);
    }
  }

  /** The clean-up: the first source of each URL, in order, numbered from one. */
  lemma CleanedUpIsFirsts(sources: seq<Source>)
    ensures CleanedUp(sources) == NumberedFrom(Firsts({}, sources), 0)
  {
    FirstOfEachIsFirsts(sources);
    ReindexedIsNumbered(Firsts({}, sources), 0);
  }

  /** The sources of the final response: of the base's sources and then the batches', the first of each
      URL, in order, with URL and title as they are, numbered from one. */
  lemma FinalSources(base: Merged, bs: seq<Batch>, tag: (string, string) -> string)
    ensures CleanedUp(MergeBatches(base, bs, tag).sources) == NumberedFrom(Firsts({}, base.sources + AllSources(bs)), 0)
  {
    var b, more := base.sources, AllSources(bs);
    MergedSources(base, bs, tag);
    AddAllIsFirsts(b, more);
    CleanedUpIsFirsts(AddAll(b, more));
    hide AddAll, Firsts, NumberedFrom, CleanedUp, MergeBatches, AllSources, Urls;
    var firsts := Firsts(Urls(b), more);
    var added := NumberedFrom(firsts, |b|);
    assert {} + Urls(b) == Urls(b);
    FirstsAppend({}, b, added);
    FirstsOfFirsts(Urls(b), more, |b|);
    FirstsAppend({}, b, more);
    var kept := Firsts({}, b);
    NumberedAppend(kept, added, 0);
    NumberedAppend(kept, firsts, 0);
    NumberedTwice(firsts, |b|, |kept|);
  }

  // ---- What the segments are ----------------------------------------------------------------------

  /** What rewriting leaves alone, or hands to `tag`: the kind of segment, its title with the batch's
      key, the number of its citations, and every number that is not one of the batch's. */
  ghost predicate KeepsRest(b: Batch, tag: (string, string) -> string, original: Segment, rewritten: Segment) {
    match original
    case Context(title, cs) =>
      rewritten.Context? && rewritten.title == tag(title, b.key) && rewritten.citations.Some? == cs.Some? &&
      (cs.Some? ==>
         |rewritten.citations.value| == |cs.value| &&
         forall i :: 0 <= i < |cs.value| && !(1 <= cs.value[i] <= |b.sources|) ==> rewritten.citations.value[i] == cs.value[i])
    case Quote(c) =>
      rewritten.Quote? && rewritten.citation.Some? == c.Some? &&
      (c.Some? && !(1 <= c.value <= |b.sources|) ==> rewritten.citation == c)
    case _ => rewritten == original
  }

  /** The segments of the final response are the base's, then each batch's in order, and no others. */
  lemma {:induction false} FinalSegments(m: Merged, bs: seq<Batch>, tag: (string, string) -> string)
    ensures m.segments <= MergeBatches(m, bs, tag).segments
    ensures |MergeBatches(m, bs, tag).segments| == SegmentStart(m, bs, |bs|)
    decreases bs
  {
    hide MergeBatch, SegmentStart;
    MergeGrows(m, bs, tag);
    NoBatches(m, bs);
    if bs == [] {
    } else {
      FinalSegments(MergeBatch(m, bs[0], tag), bs[1..], tag);
      SegmentStartTail(m, bs, |bs|, tag);
    }
  }

  /** Segment `i` of batch `k` keeps all but the numbers of its batch's sources. */
  lemma {:induction false} FinalSegment(m: Merged, bs: seq<Batch>, tag: (string, string) -> string, k: nat, i: nat)
    requires k < |bs| && i < |bs[k].segments|
    ensures
      var m', at := MergeBatches(m, bs, tag), SegmentStart(m, bs, k) + i;
      at < |m'.segments| && KeepsRest(bs[k], tag, bs[k].segments[i], m'.segments[at])
    decreases bs
  {
    hide KeepsRest, MergeBatch;
    var m1 := MergeBatch(m, bs[0], tag);
    if k == 0 {
      MergeGrows(m1, bs[1..], tag);
      OneBatchKeeps(m, bs[0], tag, i);
    } else {
      FinalSegment(m1, bs[1..], tag, k - 1, i);
      SegmentStartTail(m, bs, k, tag);
      assert bs[1..][k - 1] == bs[k];
    }
  }

  lemma NoBatches(m: Merged, bs: seq<Batch>)
    ensures SegmentStart(m, bs, 0) == |m.segments|
  {
  }

  lemma OneBatchKeeps(m: Merged, b: Batch, tag: (string, string) -> string, i: nat)
    requires i < |b.segments|
    ensures
      var m1 := MergeBatch(m, b, tag);
      |m.segments| + i < |m1.segments| && KeepsRest(b, tag, b.segments[i], m1.segments[|m.segments| + i])
  {
    hide FindUrl, AddAll;
  }

  // ---- Contexts and quotes, whatever the base ---------------------------------------------------

  /** Citation number `c` of a context or quote. */
  function CitationAt(segment: Segment, c: nat): Option<int> {
    match segment
    case Context(_, cs) => if cs.Some? && c < |cs.value| then Some(cs.value[c]) else None
    case Quote(n) => if c == 0 then n else None
    case _ => None
  }

  /** How many base sources come up to and with the first of this URL: all, if it is new. */
  function BaseUpTo(base: seq<Source>, url: string): (n: nat)
    ensures n <= |base|
  {
    if FindUrl(base, url) < |base| then FindUrl(base, url) + 1 else |base|
  }

  /** Exactly which citations of contexts and quotes survive, whatever the base: the rewritten number
      leads to the URL the batch cited before the clean-up, and after it if and only if the base
      sources up to that URL (all of them, if it is new) have distinct URLs. */
  lemma CitationSurvivesExactly(base: Merged, bs: seq<Batch>, tag: (string, string) -> string, k: nat, i: nat, c: nat)
    requires k < |bs| && i < |bs[k].segments| && CitationAt(bs[k].segments[i], c).Some?
    requires 1 <= CitationAt(bs[k].segments[i], c).value <= |bs[k].sources|
    ensures
      var m := MergeBatches(base, bs, tag);
      var at, n := SegmentStart(base, bs, k) + i, CitationAt(bs[k].segments[i], c).value;
      var url := bs[k].sources[n - 1].url;
      at < |m.segments| && CitationAt(m.segments[at], c).Some? &&
      var g := CitationAt(m.segments[at], c).value;
      LeadsTo(m.sources, g, url) &&
      (LeadsTo(CleanedUp(m.sources), g, url) <==> UrlDistinct(base.sources[..BaseUpTo(base.sources, url)]))
  {
    hide FindUrl, MergeBatches, CleanedUp, AllSources, UrlDistinct, AddAll, BaseUpTo;
    var m := MergeBatches(base, bs, tag);
    MergeCitesAlike(base, bs, tag, k, i);
    MergedSources(base, bs, tag);
    AddAllGrows(base.sources, AllSources(bs));
    var at, n := SegmentStart(base, bs, k) + i, CitationAt(bs[k].segments[i], c).value;
    var g, url := CitationAt(m.segments[at], c).value, bs[k].sources[n - 1].url;
    NumberSurvivesExactly(m.sources, g);
    DistinctUpTo(base.sources, AllSources(bs), g, url);
  }

  /** Up to the first source of a URL, the merged sources are distinct exactly if the base's are. */
  lemma DistinctUpTo(base: seq<Source>, more: seq<Source>, g: nat, url: string)
    requires LeadsFirst(AddAll(base, more), g, url)
    ensures UrlDistinct(AddAll(base, more)[..g]) <==> UrlDistinct(base[..BaseUpTo(base, url)])
  {
    hide FindUrl, AddAll, UrlDistinct;
    var merged := AddAll(base, more);
    AddAllGrows(base, more);
    var first := FindUrl(base, url);
    if first < |base| {
      assert merged[first].url == url && first == g - 1;
      assert merged[..g] == base[..g];
    } else {
      assert forall j :: 0 <= j < |base| ==> merged[j].url != url;
      assert g > |base|;
      assert base[..|base|] == base;
      if UrlDistinct(base) { PrefixDistinct(merged[..g], merged); }
      if UrlDistinct(merged[..g]) { PrefixDistinct(base, merged[..g]); }
    }
  }

  /** So duplicate URLs in the base make numbers wrong: a batch that cites its own new source ends up
      with a number beyond the last source. */
  lemma DuplicatesLeaveNumbersDangling(tag: (string, string) -> string)
    ensures
      var base := Merged([Source(1, "a", ""), Source(2, "a", "")], []);
      var b := Batch("social", [Source(1, "b", "")], [Quote(Some(1))]);
      var m := MergeBatches(base, [b], tag);
      m.segments == [Quote(Some(3))] && LeadsTo(m.sources, 3, "b") && |CleanedUp(m.sources)| == 2
  {
    var base := [Source(1, "a", ""), Source(2, "a", "")];
    var b := Batch("social", [Source(1, "b", "")], [Quote(Some(1))]);
    var merged := base + [Source(3, "b", "")];
    assert [b][1..] == [] && b.sources[1..] == [];
    FindUrlUnique(merged, "b", 2);
    assert FindUrl(base, "b") == 2;
    assert AddAll(base, b.sources) == merged;
    assert MergeBatch(Merged(base, []), b, tag) == Merged(merged, [Quote(Some(3))]);
    assert MergeBatches(Merged(base, []), [b], tag) == MergeBatches(MergeBatch(Merged(base, []), b, tag), [], tag);
    TwoAreLeft(base[0], base[1], merged[2]);
    assert merged == [base[0], base[1], merged[2]];
    assert |CleanedUp(merged)| == |FirstOfEach(merged)| == 2;
  }

  lemma TwoAreLeft(x: Source, y: Source, z: Source)
    requires x.url == y.url != z.url
    ensures FirstOfEach([x, y, z]) == [x, z]
  {
    assert [x, y, z][..2] == [x, y] && [x, y][..1] == [x] && [x][..0] == [];
    FindUrlUnique([x], y.url, 0);
    assert FindUrl([x, y], z.url) == 2;
    assert FirstOfEach([]) == [];
    assert FirstOfEach([x]) == [x];
    assert FirstOfEach([x, y]) == [x];
  }

  /** Exactly which citations of text segments survive, although they are not rewritten. In the final
      response the segment is as its batch had it, and an in-range number leads to the URL its batch
      meant if and only if that number is where the URL goes: computed from the base sources and
      the batches' sources alone. */
  lemma TextCitationSurvivesExactly(base: Merged, bs: seq<Batch>, tag: (string, string) -> string, k: nat, i: nat, c: nat)
    requires UrlDistinct(base.sources) && Numbered(base.sources) && k < |bs| && i < |bs[k].segments|
    requires bs[k].segments[i].Text? && bs[k].segments[i].textCitations.Some? && c < |bs[k].segments[i].textCitations.value|
    requires 1 <= bs[k].segments[i].textCitations.value[c] <= |bs[k].sources|
    ensures
      var m := MergeBatches(base, bs, tag);
      var at, n := SegmentStart(base, bs, k) + i, bs[k].segments[i].textCitations.value[c];
      var url := bs[k].sources[n - 1].url;
      at < |m.segments| && m.segments[at] == bs[k].segments[i] &&
      (LeadsTo(CleanedUp(m.sources), n, url) <==> GoesTo(base.sources, AllSources(bs), url, n))
  {
    hide GoesTo, LeadsTo, LeadsFirst, FindUrl, MergeBatches, CleanedUp, AllSources, UrlDistinct, Numbered;
    var n := bs[k].segments[i].textCitations.value[c];
    CleanUpIsIdentityExactly(base, bs, tag);
    MergeCitesAlike(base, bs, tag, k, i);
    MergedSources(base, bs, tag);
    BatchAmongAll(bs, k, n);
    LeadsToItsPlace(base.sources, AllSources(bs), bs[k].sources[n - 1].url, n);
  }

  /** The usual case: a batch of distinct URLs, all new to the base, keeps the numbers of its text
      segments if and only if the base is empty. */
  lemma NewBatchKeepsNumbersExactly(base: seq<Source>, batch: seq<Source>, n: nat)
    requires UrlDistinct(batch) && 1 <= n <= |batch| && forall s <- batch :: !HasUrl(base, s.url)
    ensures GoesTo(base, batch, batch[n - 1].url, n) <==> base == []
  {
    hide FindUrl;
    var url := batch[n - 1].url;
    assert batch[n - 1] in batch && !HasUrl(base, url);
    FindUrlDistinct(batch, url, n - 1);
    AllNew(base, batch[..n - 1]);
  }

  lemma {:induction false} AllNew(base: seq<Source>, batch: seq<Source>)
    requires UrlDistinct(batch) && forall s <- batch :: !HasUrl(base, s.url)
    ensures |NewUrls(base, batch)| == |batch|
  {
    hide FindUrl;
    if batch == [] {
      assert NewUrls(base, batch) == {};
    } else {
      var front, last := batch[..|batch| - 1], batch[|batch| - 1];
      assert batch == front + [last] && last in batch;
      assert forall s <- front :: s in batch;
      AllNew(base, front);
      NewUrlsSnoc(base, front, last);
      assert last.url !in NewUrls(base, front);
    }
  }

  /** So text citations go astray: this batch's text cites its own source, the merged response's text
      cites the base's. */
  lemma TextCitationsGoAstray(tag: (string, string) -> string)
    ensures
      var base := Merged([Source(1, "base", "")], []);
      var b := Batch("social", [Source(1, "own", "")], [Text(Some([1]))]);
      var m := MergeBatches(base, [b], tag);
      m.segments == [Text(Some([1]))] && LeadsTo(b.sources, 1, "own") && LeadsTo(CleanedUp(m.sources), 1, "base")
  {
    var base := Merged([Source(1, "base", "")], []);
    var b := Batch("social", [Source(1, "own", "")], [Text(Some([1]))]);
    assert [b][1..] == [] && MergeBatches(MergeBatch(base, b, tag), [], tag) == MergeBatch(base, b, tag);
    hide AddAll, FindUrl, CleanedUp;
    var m := MergeBatches(base, [b], tag);
    CleanUpIsIdentityExactly(base, [b], tag);
    MergeGrows(base, [b], tag);
    assert m.sources[0] == base.sources[0];
  }
}
