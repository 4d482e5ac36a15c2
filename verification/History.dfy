/** The per-user history, a Redis sorted set cut to its 100 greatest members
    (src/services/HistoryService.ts). */
module History {
  import opened Wrappers

  const MAX_HISTORY_ITEMS: nat := 100

  /** A member of a sorted set with its score. */
  datatype Entry = Entry(score: nat, member: string)

  /** Order of texts, character by character. */
  predicate TextLess(a: string, b: string) {
    b != "" && (a == "" || a[0] < b[0] || (a[0] == b[0] && TextLess(a[1..], b[1..])))
  }

  /** Redis order: by score, then by member. */
  predicate Less(a: Entry, b: Entry) {
    a.score < b.score || (a.score == b.score && TextLess(a.member, b.member))
  }

  lemma {:induction false} TextOrder(a: string, b: string)
    ensures TextLess(a, b) || a == b || TextLess(b, a)
    ensures !(TextLess(a, b) && TextLess(b, a)) && !(a == b && TextLess(a, b))
  {
    if a != "" && b != "" && a[0] == b[0] {
      TextOrder(a[1..], b[1..]);
      assert a == [a[0]] + a[1..] && b == [b[0]] + b[1..];
    } else if a == b {
      assert a == "";
    }
  }

  lemma {:induction false} TextTransitive(a: string, b: string, c: string)
    requires TextLess(a, b) && TextLess(b, c)
    ensures TextLess(a, c)
  {
    if a == "" || a[0] < b[0] || b[0] < c[0] {
    } else {
      TextTransitive(a[1..], b[1..], c[1..]);
    }
  }

  lemma Total(a: Entry, b: Entry)
    ensures Less(a, b) || a == b || Less(b, a)
    ensures !(Less(a, b) && Less(b, a)) && !(a == b && Less(a, b))
  {
    TextOrder(a.member, b.member);
  }

  lemma Transitive(a: Entry, b: Entry, c: Entry)
    requires Less(a, b) && Less(b, c)
    ensures Less(a, c)
  {
    if a.score == b.score == c.score { TextTransitive(a.member, b.member, c.member); }
  }

  ghost predicate Sorted(z: seq<Entry>) {
    forall i, j :: 0 <= i < j < |z| ==> Less(z[i], z[j])
  }

  /** The place of a new entry in a sorted set. */
  function Insert(z: seq<Entry>, e: Entry): (r: seq<Entry>)
    ensures |r| == |z| + 1
  {
    if z == [] || Less(e, z[0]) then [e] + z else [z[0]] + Insert(z[1..], e)
  }

  function Without(z: seq<Entry>, member: string): seq<Entry> {
    if z == [] then [] else (if z[0].member == member then [] else [z[0]]) + Without(z[1..], member)
  }

  /** zadd: a member that is there already gets the new score. */
  function ZAdd(z: seq<Entry>, e: Entry): seq<Entry> {
    Insert(Without(z, e.member), e)
  }

  /** The last `n` of a sorted set, its greatest. */
  function Greatest(z: seq<Entry>, n: nat): seq<Entry> {
    if |z| <= n then z else z[|z| - n..]
  }

  /** zremrangebyrank(key, 0, -(n + 1)): the range ends `n + 1` from the back, if that exists. */
  function RemoveAllBut(z: seq<Entry>, n: nat): seq<Entry> {
    var stop := |z| - (n + 1);
    if stop < 0 then z else z[stop + 1..]
  }

  function Reverse(z: seq<Entry>): (r: seq<Entry>)
    ensures |r| == |z|
  {
    seq(|z|, i requires 0 <= i < |z| => z[|z| - 1 - i])
  }

  /** zrevrange(start, stop): negative numbers count from the back. */
  function RevRange(z: seq<Entry>, start: int, stop: int): seq<Entry> {
    var n := |z|;
    var a0, b0 := if start < 0 then start + n else start, if stop < 0 then stop + n else stop;
    var a, b := if a0 < 0 then 0 else a0, if b0 >= n then n - 1 else b0;
    if a > b || a >= n then [] else Reverse(z)[a..b + 1]
  }

  /** getUserHistory */
  function Page(z: seq<Entry>, limit: nat, offset: nat): seq<Entry> {
    RevRange(z, offset, offset + limit - 1)
  }

  /** The stored set after adding entries one by one. */
  function Streamed(es: seq<Entry>): seq<Entry> {
    if es == [] then [] else RemoveAllBut(ZAdd(Streamed(es[..|es| - 1]), es[|es| - 1]), MAX_HISTORY_ITEMS)
  }

  /** All entries ever added, in order. */
  function All(es: seq<Entry>): seq<Entry> {
    if es == [] then [] else ZAdd(All(es[..|es| - 1]), es[|es| - 1])
  }

  /** What parsing a member tells, and how an update rewrites it. */
  datatype Codec = Codec(idOf: string -> string, timeOf: string -> nat)

  function FindId(c: Codec, z: seq<Entry>, id: string): (i: nat)
    ensures i <= |z|
    ensures i < |z| ==> c.idOf(z[i].member) == id
    ensures forall j :: 0 <= j < i ==> c.idOf(z[j].member) != id
  {
    if z == [] || c.idOf(z[0].member) == id then 0 else 1 + FindId(c, z[1..], id)
  }

  /** updateHistoryItem: the member is removed and added again, rewritten, with the score its own
      time stamp gives. */
  function Updated(c: Codec, z: seq<Entry>, id: string, patch: string -> string): seq<Entry> {
    var i := FindId(c, z, id);
    if i == |z| then z
    else ZAdd(Without(z, z[i].member), Entry(c.timeOf(patch(z[i].member)), patch(z[i].member)))
  }

  class HistoryService {
    const codec: Codec
    var sets: map<string, seq<Entry>>

    constructor (codec: Codec)
      ensures this.codec == codec && sets == map[]
    {
      this.codec, sets := codec, map[];
    }

    function SetOf(userId: string): seq<Entry>
      reads this
    {
      if userId in sets then sets[userId] else []
    }

    method AddHistoryItem(userId: string, now: nat, item: string)
      modifies this
      ensures SetOf(userId) == RemoveAllBut(ZAdd(old(SetOf(userId)), Entry(now, item)), MAX_HISTORY_ITEMS)
      ensures forall u :: u != userId ==> SetOf(u) == old(SetOf(u))
    {
      sets := sets[userId := ZAdd(SetOf(userId), Entry(now, item))];
      sets := sets[userId := RemoveAllBut(sets[userId], MAX_HISTORY_ITEMS)];
    }

    /** The entries from position `offset` on, `limit` of them if there are so many, newest first;
        a limit of zero at the start gives them all. */
    method GetUserHistory(userId: string, limit: nat, offset: nat) returns (items: seq<Entry>)
      ensures items == Page(SetOf(userId), limit, offset)
      ensures
        var newest := Reverse(SetOf(userId));
        limit > 0 ==> items == newest[MinNat(offset, |newest|)..MinNat(offset + limit, |newest|)]
      ensures limit == 0 ==> items == if offset == 0 then Reverse(SetOf(userId)) else []
    {
      items := RevRange(SetOf(userId), offset, offset + limit - 1);
      if limit > 0 {
        PageIsSlice(SetOf(userId), limit, offset);
      } else {
        EmptyPageExactly(SetOf(userId), offset);
      }
    }

    method UpdateHistoryItem(userId: string, id: string, patch: string -> string) returns (found: bool)
      modifies this
      ensures found == (FindId(codec, old(SetOf(userId)), id) < |old(SetOf(userId))|)
      ensures SetOf(userId) == Updated(codec, old(SetOf(userId)), id, patch)
      ensures forall u :: u != userId ==> SetOf(u) == old(SetOf(u))
    {
      var items := SetOf(userId);
      var i := FindId(codec, items, id);
      if i == |items| { return false; }
      var member := items[i].member;
      sets := sets[userId := Without(items, member)];
      var updated := patch(member);
      sets := sets[userId := ZAdd(sets[userId], Entry(codec.timeOf(updated), updated))];
      found := true;
    }

    method DeleteUserHistory(userId: string)
      modifies this
      ensures SetOf(userId) == [] && forall u :: u != userId ==> SetOf(u) == old(SetOf(u))
    {
      sets := sets - {userId};
    }
  }

  // ---- Laws -----------------------------------------------------------------------------------------

  lemma {:induction false} InsertSorts(z: seq<Entry>, e: Entry)
    requires Sorted(z) && e !in z
    ensures Sorted(Insert(z, e)) && multiset(Insert(z, e)) == multiset(z) + multiset{e}
  {
    if z == [] {
    } else if Less(e, z[0]) {
      forall i | 0 <= i < |z| ensures Less(e, z[i]) {
        if i > 0 { Transitive(e, z[0], z[i]); }
      }
    } else {
      Total(e, z[0]);
      assert z == [z[0]] + z[1..];
      InsertSorts(z[1..], e);
      var r := Insert(z[1..], e);
      forall i | 0 <= i < |r| ensures Less(z[0], r[i]) {
        assert r[i] in multiset(r);
        if r[i] != e {
          assert r[i] in z[1..];
        }
      }
    }
  }

  lemma {:induction false} WithoutNone(z: seq<Entry>, member: string)
    requires forall e <- z :: e.member != member
    ensures Without(z, member) == z
  {
    if z == [] {
    } else {
      WithoutNone(z[1..], member);
    }
  }

  lemma RemoveIsGreatest(z: seq<Entry>, n: nat)
    ensures RemoveAllBut(z, n) == Greatest(z, n)
  {
  }

  /** An entry below a suffix of a sorted list goes in front of the suffix; any other goes into it. */
  lemma {:induction false} InsertSplit(z: seq<Entry>, e: Entry, k: nat)
    requires k < |z| && Sorted(z) && e !in z
    ensures if Less(e, z[k]) then Insert(z, e)[k + 1..] == z[k..] else Insert(z, e) == z[..k] + Insert(z[k..], e)
  {
    hide Less, Sorted, Insert;
    if k == 0 {
      assert z[0..] == z && z[..0] == [];
      if Less(e, z[0]) { InsertInFront(z, e); }
      assert [] + Insert(z, e) == Insert(z, e);
    } else if Less(e, z[0]) {
      FrontIsLess(z, k);
      Transitive(e, z[0], z[k]);
      InsertInFront(z, e);
      assert ([e] + z)[k + 1..] == z[k..];
    } else {
      SortedTail(z, 1);
      InsertSplit(z[1..], e, k - 1);
      InsertBehind(z, e);
      TailOfTail(z, Insert(z[1..], e), k);
    }
  }

  lemma FrontIsLess(z: seq<Entry>, k: nat)
    requires Sorted(z) && 0 < k < |z|
    ensures Less(z[0], z[k])
  {
  }

  lemma InsertInFront(z: seq<Entry>, e: Entry)
    requires z == [] || Less(e, z[0])
    ensures Insert(z, e) == [e] + z
  {
  }

  lemma InsertBehind(z: seq<Entry>, e: Entry)
    requires z != [] && !Less(e, z[0])
    ensures Insert(z, e) == [z[0]] + Insert(z[1..], e)
  {
  }

  lemma TailOfTail(z: seq<Entry>, rest: seq<Entry>, k: nat)
    requires 0 < k < |z| && |rest| == |z|
    ensures z[1..][k - 1] == z[k] && z[1..][k - 1..] == z[k..] && z[..k] == [z[0]] + z[1..][..k - 1]
    ensures ([z[0]] + rest)[k + 1..] == rest[k..]
    ensures forall tail :: [z[0]] + (z[1..][..k - 1] + tail) == z[..k] + tail
  {
    forall tail: seq<Entry> ensures [z[0]] + (z[1..][..k - 1] + tail) == z[..k] + tail {
    }
  }

  lemma SortedTail(z: seq<Entry>, k: nat)
    requires Sorted(z) && k <= |z|
    ensures Sorted(z[k..])
  {
  }

  lemma DropPast<A>(a: seq<A>, b: seq<A>)
    requires b != []
    ensures (a + b)[|a| + 1..] == b[1..]
  {
  }

  /** Cutting before an insertion does not change what is left after cutting again. */
  lemma GreatestOfInsert(z: seq<Entry>, e: Entry, n: nat)
    requires Sorted(z) && e !in z && n > 0
    ensures Greatest(Insert(Greatest(z, n), e), n) == Greatest(Insert(z, e), n)
  {
    hide Less, Insert, Sorted;
    if |z| > n {
      var k := |z| - n;
      var tail := z[k..];
      assert Sorted(tail) by { SortedTail(z, k); }
      InsertSplit(z, e, k);
      InsertSplit(tail, e, 0);
      assert tail[0..] == tail;
      if !Less(e, z[k]) { DropPast(z[..k], Insert(tail, e)); }
    }
  }

  /** No two entries have the same member. */
  ghost predicate MembersDistinct(es: seq<Entry>) {
    forall i, j :: 0 <= i < j < |es| ==> es[i].member != es[j].member
  }

  /** The members already there differ from the one added last. */
  lemma LastIsNew(es: seq<Entry>, z: seq<Entry>)
    requires es != [] && MembersDistinct(es) && multiset(z) == multiset(es[..|es| - 1])
    ensures forall e <- z :: e.member != es[|es| - 1].member
    ensures es[|es| - 1] !in z
  {
    forall e | e in z ensures e.member != es[|es| - 1].member {
      assert e in multiset(z) && e in es[..|es| - 1];
    }
  }

  lemma {:induction false} AllOf(es: seq<Entry>)
    requires MembersDistinct(es)
    ensures Sorted(All(es)) && multiset(All(es)) == multiset(es)
  {
    if es == [] {
    } else {
      var front, last := es[..|es| - 1], es[|es| - 1];
      assert es == front + [last];
      AllOf(front);
      LastIsNew(es, All(front));
      WithoutNone(All(front), last.member);
      InsertSorts(All(front), last);
    }
  }

  lemma ZAddGreatest(z: seq<Entry>, e: Entry, n: nat)
    requires Sorted(z) && n > 0 && forall f <- z :: f.member != e.member
    ensures RemoveAllBut(ZAdd(Greatest(z, n), e), n) == Greatest(ZAdd(z, e), n)
  {
    WithoutNone(z, e.member);
    WithoutNone(Greatest(z, n), e.member);
    GreatestOfInsert(z, e, n);
    RemoveIsGreatest(Insert(Greatest(z, n), e), n);
  }

  lemma {:induction false} StreamedIsGreatest(es: seq<Entry>)
    requires MembersDistinct(es)
    ensures Streamed(es) == Greatest(All(es), MAX_HISTORY_ITEMS)
  {
    if es == [] {
    } else {
      var front := es[..|es| - 1];
      AllOf(front);
      StreamedIsGreatest(front);
      LastIsNew(es, All(front));
      ZAddGreatest(All(front), es[|es| - 1], MAX_HISTORY_ITEMS);
    }
  }

  /** Streaming top-100: after any additions (of distinct members) the stored set is the last 100, in
      (score, member) order, of everything ever added. */
  lemma StreamedIsTop(es: seq<Entry>)
    requires MembersDistinct(es)
    ensures Streamed(es) == (if |All(es)| <= 100 then All(es) else All(es)[|All(es)| - 100..])
    ensures Sorted(All(es)) && multiset(All(es)) == multiset(es)
  {
    AllOf(es);
    StreamedIsGreatest(es);
  }

  /** The greatest of a sorted list are greater than all the others. */
  lemma GreatestAreGreatest(z: seq<Entry>, n: nat, e: Entry, f: Entry)
    requires Sorted(z) && e in z && e !in Greatest(z, n) && f in Greatest(z, n)
    ensures Less(e, f) && |Greatest(z, n)| == n
  {
    var k := |z| - n;
    forall x | k <= x < |z| ensures z[x] in z[k..] {
      assert z[x] == z[k..][x - k];
    }
    var i :| 0 <= i < |z| && z[i] == e;
    var j :| 0 <= j < n && z[k..][j] == f;
    assert z[k + j] == f;
  }

  /** The first `m` pages of size `limit`, one after another. */
  function Pages(z: seq<Entry>, limit: nat, m: nat): seq<Entry> {
    if m == 0 then [] else Pages(z, limit, m - 1) + Page(z, limit, (m - 1) * limit)
  }

  function MinNat(a: nat, b: nat): nat {
    if a <= b then a else b
  }

  lemma PageIsSlice(z: seq<Entry>, limit: nat, offset: nat)
    requires limit > 0
    ensures
      var a, b := MinNat(offset, |z|), MinNat(offset + limit, |z|);
      a <= b && Page(z, limit, offset) == Reverse(z)[a..b]
  {
  }

  /** Pages of any size at least one, put together, are the whole history, newest first. */
  lemma {:induction false} PagesCoverAll(z: seq<Entry>, limit: nat, m: nat)
    requires limit > 0
    ensures Pages(z, limit, m) == Reverse(z)[..MinNat(m * limit, |z|)]
    ensures m * limit >= |z| ==> Pages(z, limit, m) == Reverse(z)
  {
    if m == 0 {
    } else {
      PagesCoverAll(z, limit, m - 1);
      var offset := (m - 1) * limit;
      assert m * limit == offset + limit;
      PageIsSlice(z, limit, offset);
      var a, b := MinNat(offset, |z|), MinNat(offset + limit, |z|);
      assert Reverse(z)[..a] + Reverse(z)[a..b] == Reverse(z)[..b];
    }
  }

  /** A page of size zero is empty, except at the start, where the range (0, -1) is everything. */
  lemma EmptyPageExactly(z: seq<Entry>, offset: nat)
    ensures Page(z, 0, offset) == (if offset == 0 then Reverse(z) else [])
  {
  }

  lemma {:induction false} WithoutShrinks(z: seq<Entry>, member: string)
    ensures |Without(z, member)| <= |z|
    ensures (exists e <- z :: e.member == member) ==> |Without(z, member)| < |z|
  {
    if z == [] {
    } else {
      WithoutShrinks(z[1..], member);
      assert forall e :: e in z <==> e == z[0] || e in z[1..];
    }
  }

  /** An update never makes the history longer, so it stays within the limit. */
  lemma UpdateKeepsLimit(c: Codec, z: seq<Entry>, id: string, patch: string -> string)
    ensures |Updated(c, z, id, patch)| <= |z|
  {
    var i := FindId(c, z, id);
    if i < |z| {
      assert z[i] in z;
      WithoutShrinks(z, z[i].member);
      WithoutShrinks(Without(z, z[i].member), patch(z[i].member));
    }
  }

  // ---- Updates --------------------------------------------------------------------------------------

  lemma {:induction false} WithoutLaw(z: seq<Entry>, member: string)
    requires Sorted(z)
    ensures Sorted(Without(z, member))
    ensures forall e :: e in Without(z, member) <==> e in z && e.member != member
  {
    hide Less;
    if z == [] {
    } else {
      var rest := Without(z[1..], member);
      WithoutLaw(z[1..], member);
      assert forall e :: e in z <==> e == z[0] || e in z[1..];
      if z[0].member != member {
        assert Without(z, member) == [z[0]] + rest;
        forall i | 0 <= i < |rest| ensures Less(z[0], rest[i]) {
          assert rest[i] in rest && rest[i] in z[1..];
        }
      }
    }
  }

  /** zadd keeps the order, replaces an entry of the same member, and touches no other. */
  lemma ZAddLaw(z: seq<Entry>, e: Entry)
    requires Sorted(z)
    ensures Sorted(ZAdd(z, e))
    ensures forall x :: x in ZAdd(z, e) <==> x == e || (x in z && x.member != e.member)
  {
    hide Less, Sorted;
    var w := Without(z, e.member);
    WithoutLaw(z, e.member);
    InsertSorts(w, e);
    forall x ensures x in ZAdd(z, e) <==> x == e || x in w {
      assert x in ZAdd(z, e) <==> x in multiset(ZAdd(z, e));
    }
  }

  /** What an update does: if no entry has the id, nothing; otherwise the first entry with it is
      replaced by its rewriting under the time stamp that gives, the order is kept, and every entry
      of another member stays. */
  lemma UpdateLaw(c: Codec, z: seq<Entry>, id: string, patch: string -> string)
    requires Sorted(z)
    ensures Sorted(Updated(c, z, id, patch))
    ensures
      var i := FindId(c, z, id);
      if i == |z| then Updated(c, z, id, patch) == z
      else
        var was := z[i].member;
        var now := Entry(c.timeOf(patch(was)), patch(was));
        forall x :: x in Updated(c, z, id, patch) <==> x == now || (x in z && x.member != was && x.member != now.member)
  {
    hide Less, Sorted, Without, ZAdd;
    var i := FindId(c, z, id);
    if i < |z| {
      var was := z[i].member;
      WithoutLaw(z, was);
      ZAddLaw(Without(z, was), Entry(c.timeOf(patch(was)), patch(was)));
    }
  }

  datatype Change = Add(entry: Entry) | Rewrite(id: string, patch: string -> string) | Clear

  /** The stored set after any changes. */
  function Stored(c: Codec, hs: seq<Change>): seq<Entry> {
    if hs == [] then []
    else
      var z := Stored(c, hs[..|hs| - 1]);
      match hs[|hs| - 1]
      case Add(e) => RemoveAllBut(ZAdd(z, e), MAX_HISTORY_ITEMS)
      case Rewrite(id, patch) => Updated(c, z, id, patch)
      case Clear => []
  }

  /** After any additions, updates and deletions the stored set is in order and within its limit. */
  lemma {:induction false} StoredIsSortedAndBounded(c: Codec, hs: seq<Change>)
    ensures Sorted(Stored(c, hs)) && |Stored(c, hs)| <= MAX_HISTORY_ITEMS
  {
    hide Less, Updated, ZAdd;
    if hs == [] {
    } else {
      var z := Stored(c, hs[..|hs| - 1]);
      StoredIsSortedAndBounded(c, hs[..|hs| - 1]);
      match hs[|hs| - 1]
      case Add(e) =>
        ZAddLaw(z, e);
        RemoveIsGreatest(ZAdd(z, e), MAX_HISTORY_ITEMS);
      case Rewrite(id, patch) =>
        UpdateLaw(c, z, id, patch);
        UpdateKeepsLimit(c, z, id, patch);
      case Clear =>
    }
  }

  // ---- What the order is --------------------------------------------------------------------------

  /** By score first, then by member, character by character, a text before its continuations. */
  lemma OrderMeans(s: nat, t: nat, m: string, n: string, c: char, d: char, tail: string)
    ensures s < t ==> Less(Entry(s, m), Entry(t, n))
    ensures c < d ==> Less(Entry(s, m + [c] + n), Entry(s, m + [d] + tail))
    ensures Less(Entry(s, m), Entry(s, m + [c] + n))
  {
    if c < d { TextDiffers(m, [c] + n, [d] + tail); assert m + ([c] + n) == m + [c] + n && m + ([d] + tail) == m + [d] + tail; }
    TextDiffers(m, "", [c] + n);
    assert m + "" == m && m + ([c] + n) == m + [c] + n;
  }

  lemma {:induction false} TextDiffers(m: string, a: string, b: string)
    requires b != "" && (a == "" || a[0] < b[0])
    ensures TextLess(m + a, m + b)
  {
    if m == "" {
      assert m + a == a && m + b == b;
    } else {
      assert (m + a)[1..] == m[1..] + a && (m + b)[1..] == m[1..] + b;
      TextDiffers(m[1..], a, b);
    }
  }

  /** Newest first: the reverse of a set in order goes down, and has the same entries. */
  lemma NewestFirst(z: seq<Entry>)
    requires Sorted(z)
    ensures forall i, j :: 0 <= i < j < |z| ==> Less(Reverse(z)[j], Reverse(z)[i])
    ensures forall e :: e in Reverse(z) <==> e in z
  {
    var r := Reverse(z);
    forall e | e in z ensures e in r {
      var i :| 0 <= i < |z| && z[i] == e;
      assert r[|z| - 1 - i] == e;
    }
  }
}
