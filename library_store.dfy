/**
 * `InMemoryLibraryStore`: media items by id, the last saved position of
 * each, and the list of plays from which the recent items are drawn.
 */
module LibraryStore {
  import opened Wrappers
  import opened Domain
  import opened Seqs
  import opened StableSort

  /** One entry of `_recents`: when an item was played. */
  datatype Recent = Recent(playedAt: int, id: string)

  // ------------------------------------------------------------ record helpers

  /** The records of other ids (`RemoveAll(x => x.id == id)` keeps these). */
  function Others(s: seq<Recent>, id: string): (r: seq<Recent>) {
    Filter(s, (x: Recent) => x.id != id)
  }

  /** The records of one id. */
  function RecordsOf(s: seq<Recent>, id: string): (r: seq<Recent>) {
    Filter(s, (x: Recent) => x.id == id)
  }

  /** No two records share an id. */
  ghost predicate UniqueIds(s: seq<Recent>) {
    forall i, j :: 0 <= i < j < |s| ==> s[i].id != s[j].id
  }

  /** Latest play first. */
  predicate LaterFirst(a: Recent, b: Recent) {
    a.playedAt >= b.playedAt
  }

  ghost predicate Descending(s: seq<Recent>) {
    forall i, j :: 0 <= i < j < |s| ==> s[i].playedAt >= s[j].playedAt
  }

  /** No play of the same id is later than `r`. */
  ghost predicate Latest(r: Recent, recents: seq<Recent>) {
    forall x :: x in recents && x.id == r.id ==> x.playedAt <= r.playedAt
  }

  lemma LaterFirstPreorder()
    ensures TotalPreorder(LaterFirst)
  {
  }

  /** `Select(x => x.id)`. */
  function Ids(s: seq<Recent>): (r: seq<string>)
    ensures |r| == |s| && forall i :: 0 <= i < |s| ==> r[i] == s[i].id
    decreases |s|
  {
    if s == [] then [] else [s[0].id] + Ids(s[1..])
  }

  /** `Select(id => lookup).Where(x => x is not null)`: the items of the known ids, in order. */
  function Lookup(ids: seq<string>, items: map<string, MediaItem>): (r: seq<MediaItem>)
    decreases |ids|
  {
    if ids == [] then []
    else if ids[0] in items then [items[ids[0]]] + Lookup(ids[1..], items)
    else Lookup(ids[1..], items)
  }

  /** `GetRecentAsync(limit)` over the store's contents. */
  function RecentItems(recents: seq<Recent>, items: map<string, MediaItem>, limit: int): seq<MediaItem> {
    Take(Lookup(Distinct(Ids(Sort(recents, LaterFirst))), items), limit)
  }

  // ------------------------------------------------------------ the same query on records

  /** Keeps each id's first record, in order. */
  function FirstPerId(s: seq<Recent>): (r: seq<Recent>)
    decreases |s|
  {
    if s == [] then [] else [s[0]] + FirstPerId(Others(s[1..], s[0].id))
  }

  /** The items of a list of records whose ids are known. */
  function ItemsOf(rs: seq<Recent>, items: map<string, MediaItem>): (r: seq<MediaItem>)
    ensures (forall x :: x in rs ==> x.id in items) ==>
              |r| == |rs| && forall i :: 0 <= i < |rs| ==> r[i] == items[rs[i].id]
    decreases |rs|
  {
    if rs == [] then []
    else if rs[0].id in items then [items[rs[0].id]] + ItemsOf(rs[1..], items)
    else ItemsOf(rs[1..], items)
  }

  /** The records `GetRecentAsync` reports: the latest play of each known id, latest first. */
  function RecentRecords(recents: seq<Recent>, items: map<string, MediaItem>): seq<Recent> {
    Filter(FirstPerId(Sort(recents, LaterFirst)), (x: Recent) => x.id in items)
  }

  lemma {:induction false} IdsOthers(t: seq<Recent>, id: string)
    ensures Ids(Others(t, id)) == Filter(Ids(t), Neq(id))
    decreases |t|
  {
    if t != [] {
      IdsOthers(t[1..], id);
      assert Ids(t)[1..] == Ids(t[1..]);
    }
  }

  /** Taking the first record per id lists the ids exactly as `Select(id).Distinct()` does. */
  lemma {:induction false} FirstPerIdIds(s: seq<Recent>)
    ensures Ids(FirstPerId(s)) == Distinct(Ids(s))
    decreases |s|
  {
    if s != [] {
      var h, t := s[0], s[1..];
      var f := Others(t, h.id);
      FilterMembers(t, (x: Recent) => x.id != h.id);
      FirstPerIdIds(f);
      IdsOthers(t, h.id);
      var all := Ids(s);
      assert all[0] == h.id && all[1..] == Ids(t);
    }
  }

  lemma {:induction false} LookupItems(rs: seq<Recent>, items: map<string, MediaItem>)
    ensures Lookup(Ids(rs), items) == ItemsOf(Filter(rs, (x: Recent) => x.id in items), items)
    decreases |rs|
  {
    FilterMembers(rs, (x: Recent) => x.id in items);
    if rs != [] {
      LookupItems(rs[1..], items);
      FilterMembers(rs[1..], (x: Recent) => x.id in items);
      assert Ids(rs)[1..] == Ids(rs[1..]);
    }
  }

  lemma {:induction false} FilterDescending(s: seq<Recent>, p: Recent -> bool)
    requires Descending(s)
    ensures Descending(Filter(s, p))
    decreases |s|
  {
    if s != [] {
      FilterDescending(s[1..], p);
      FilterMembers(s[1..], p);
      var f := Filter(s[1..], p);
      forall j | 0 <= j < |f| ensures s[0].playedAt >= f[j].playedAt {
        assert f[j] in s[1..];
      }
    }
  }

  lemma {:induction false} FilterUnique(s: seq<Recent>, p: Recent -> bool)
    requires UniqueIds(s)
    ensures UniqueIds(Filter(s, p))
    decreases |s|
  {
    if s != [] {
      FilterUnique(s[1..], p);
      FilterMembers(s[1..], p);
      var f := Filter(s[1..], p);
      forall j | 0 <= j < |f| ensures s[0].id != f[j].id {
        assert f[j] in s[1..];
      }
    }
  }

  /** `FirstPerId` keeps records of its input, with distinct ids. */
  lemma {:induction false} FirstPerIdUnique(s: seq<Recent>)
    ensures forall y :: y in FirstPerId(s) ==> y in s
    ensures UniqueIds(FirstPerId(s))
    decreases |s|
  {
    if s != [] {
      var h, t := s[0], s[1..];
      var f := Others(t, h.id);
      FilterMembers(t, (x: Recent) => x.id != h.id);
      FirstPerIdUnique(f);
      var rest := FirstPerId(f);
      var r := [h] + rest;
      assert forall y :: y in rest ==> y in t && y.id != h.id;
      forall i, j | 0 <= i < j < |r| ensures r[i].id != r[j].id {
        assert r[j] == rest[j - 1];
        if i > 0 {
          assert r[i] == rest[i - 1];
        }
      }
    }
  }

  /** Every id of the input keeps a record. */
  lemma {:induction false} FirstPerIdCovers(s: seq<Recent>)
    ensures forall x :: x in s ==> exists y :: y in FirstPerId(s) && y.id == x.id
    decreases |s|
  {
    if s != [] {
      var h, t := s[0], s[1..];
      var f := Others(t, h.id);
      FilterMembers(t, (x: Recent) => x.id != h.id);
      FirstPerIdCovers(f);
      var r := FirstPerId(s);
      assert r == [h] + FirstPerId(f);
      forall x | x in s ensures exists y :: y in r && y.id == x.id {
        if x != h && x.id != h.id {
          assert x in f;
          var y :| y in FirstPerId(f) && y.id == x.id;
          assert y in r;
        }
      }
    }
  }

  lemma DescendingTail(s: seq<Recent>)
    requires Descending(s) && s != []
    ensures Descending(s[1..])
    ensures forall x :: x in s[1..] ==> s[0].playedAt >= x.playedAt
  {
    var t := s[1..];
    forall i, j | 0 <= i < j < |t| ensures t[i].playedAt >= t[j].playedAt {
      assert t[i] == s[i + 1] && t[j] == s[j + 1];
    }
    forall x | x in t ensures s[0].playedAt >= x.playedAt {
      var k :| 0 <= k < |t| && t[k] == x;
      assert x == s[k + 1];
    }
  }

  /** On a latest-first list `FirstPerId` keeps the order. */
  lemma {:induction false} FirstPerIdDescending(s: seq<Recent>)
    requires Descending(s)
    ensures Descending(FirstPerId(s))
    decreases |s|
  {
    if s != [] {
      var h, t := s[0], s[1..];
      var f := Others(t, h.id);
      FilterMembers(t, (x: Recent) => x.id != h.id);
      DescendingTail(s);
      FilterDescending(t, (x: Recent) => x.id != h.id);
      FirstPerIdDescending(f);
      FirstPerIdUnique(f);
      var rest := FirstPerId(f);
      var r := [h] + rest;
      assert FirstPerId(s) == r;
      forall j | 0 <= j < |rest| ensures h.playedAt >= rest[j].playedAt {
        assert rest[j] in t;
      }
      forall i, j | 0 <= i < j < |r| ensures r[i].playedAt >= r[j].playedAt {
        if i > 0 {
          assert r[i] == rest[i - 1] && r[j] == rest[j - 1];
        }
      }
    }
  }

  /** On a latest-first list each record `FirstPerId` keeps is its id's latest. */
  lemma {:induction false} FirstPerIdLatest(s: seq<Recent>)
    requires Descending(s)
    ensures forall y :: y in FirstPerId(s) ==> Latest(y, s)
    decreases |s|
  {
    if s != [] {
      var h, t := s[0], s[1..];
      var f := Others(t, h.id);
      FilterMembers(t, (x: Recent) => x.id != h.id);
      DescendingTail(s);
      FilterDescending(t, (x: Recent) => x.id != h.id);
      FirstPerIdLatest(f);
      FirstPerIdUnique(f);
      var rest := FirstPerId(f);
      assert FirstPerId(s) == [h] + rest;
      forall y | y in rest ensures Latest(y, s) {
        assert y.id != h.id && Latest(y, f);
        forall x | x in s && x.id == y.id ensures x.playedAt <= y.playedAt {
          assert x in f;
        }
      }
    }
  }

  /** Sorting keeps the elements of the play list. */
  lemma SortMembers(recents: seq<Recent>)
    ensures forall x :: x in Sort(recents, LaterFirst) <==> x in recents
  {
    var sorted := Sort(recents, LaterFirst);
    assert multiset(sorted) == multiset(recents);
    forall x ensures x in sorted <==> x in recents {
      assert x in sorted <==> x in multiset(sorted);
      assert x in recents <==> x in multiset(recents);
    }
  }

  /** The records behind `GetRecentAsync`, before the limit, and the items it reports. */
  lemma RecentRecordsFacts(recents: seq<Recent>, items: map<string, MediaItem>)
    ensures var rs := RecentRecords(recents, items);
            && (forall r :: r in rs ==> r.id in items)
            && Descending(rs) && UniqueIds(rs)
            && (forall r :: r in rs ==> r in recents && Latest(r, recents))
            && (forall x :: x in recents && x.id in items ==> exists r :: r in rs && r.id == x.id)
            && Lookup(Distinct(Ids(Sort(recents, LaterFirst))), items) == ItemsOf(rs, items)
  {
    var sorted := Sort(recents, LaterFirst);
    var firsts := FirstPerId(sorted);
    var rs := RecentRecords(recents, items);
    LaterFirstPreorder();
    SortSorted(recents, LaterFirst);
    assert Descending(sorted);
    SortMembers(recents);
    FirstPerIdUnique(sorted);
    FirstPerIdCovers(sorted);
    FirstPerIdDescending(sorted);
    FirstPerIdLatest(sorted);
    FirstPerIdIds(sorted);
    FilterMembers(firsts, (x: Recent) => x.id in items);
    LookupItems(firsts, items);
    FilterDescending(firsts, (x: Recent) => x.id in items);
    FilterUnique(firsts, (x: Recent) => x.id in items);
    forall x | x in recents && x.id in items ensures exists r :: r in rs && r.id == x.id {
      var y :| y in firsts && y.id == x.id;
      assert y in rs;
    }
  }

  lemma TakePrefix<T>(s: seq<T>, n: int)
    ensures Take(s, n) == s[..|Take(s, n)|]
    ensures |Take(s, n)| < n ==> Take(s, n) == s
  {
  }

  /**
   * `GetRecentAsync`: the items of the latest play of each id that is
   * still known, latest first, distinct, at most `max(limit, 0)` of them;
   * every known id that was played appears unless the limit cut the list
   * short.
   */
  lemma RecentItemsFacts(recents: seq<Recent>, items: map<string, MediaItem>, limit: int)
    ensures var shown := Take(RecentRecords(recents, items), limit);
            && RecentItems(recents, items, limit) == ItemsOf(shown, items)
            && |shown| <= (if limit < 0 then 0 else limit)
            && Descending(shown) && UniqueIds(shown)
            && (forall r :: r in shown ==> r in recents && r.id in items && Latest(r, recents))
            && (|shown| < limit ==> forall x :: x in recents && x.id in items ==> exists r :: r in shown && r.id == x.id)
  {
    var rs := RecentRecords(recents, items);
    var shown := Take(rs, limit);
    RecentRecordsFacts(recents, items);
    TakePrefix(rs, limit);
    assert forall r :: r in shown ==> r in rs;
    ItemsOfTake(rs, items, limit);
  }

  lemma ItemsOfTake(rs: seq<Recent>, items: map<string, MediaItem>, limit: int)
    requires forall r :: r in rs ==> r.id in items
    ensures Take(ItemsOf(rs, items), limit) == ItemsOf(Take(rs, limit), items)
  {
    var shown := Take(rs, limit);
    assert forall r :: r in shown ==> r in rs;
  }

  // ------------------------------------------------------------ upsert

  /**
   * After `UpsertMediaAsync` the played list holds exactly one record of
   * the item's id, carrying the new time, and every other id's records as
   * they were.
   */
  lemma UpsertRecents(recents: seq<Recent>, id: string, playedAt: int, other: string)
    ensures RecordsOf(Others(recents, id) + [Recent(playedAt, id)], id) == [Recent(playedAt, id)]
    ensures other != id ==>
              RecordsOf(Others(recents, id) + [Recent(playedAt, id)], other) == RecordsOf(recents, other)
  {
    var kept := Others(recents, id);
    FilterAppend(kept, [Recent(playedAt, id)], (x: Recent) => x.id == id);
    FilterAppend(kept, [Recent(playedAt, id)], (x: Recent) => x.id == other);
    OthersOfSame(recents, id);
    if other != id {
      OthersOfOther(recents, id, other);
    }
  }

  /** Dropping an id's records leaves none of them. */
  lemma {:induction false} OthersOfSame(s: seq<Recent>, id: string)
    ensures RecordsOf(Others(s, id), id) == []
    decreases |s|
  {
    if s != [] {
      OthersOfSame(s[1..], id);
    }
  }

  /** Dropping one id's records leaves another id's records alone. */
  lemma {:induction false} OthersOfOther(s: seq<Recent>, id: string, other: string)
    requires other != id
    ensures RecordsOf(Others(s, id), other) == RecordsOf(s, other)
    decreases |s|
  {
    if s != [] {
      OthersOfOther(s[1..], id, other);
    }
  }

  // ------------------------------------------------------------ the store

  class InMemoryLibraryStore {
    var items: map<string, MediaItem>
    var positions: map<string, int>
    var recents: seq<Recent>

    /** One play record per id, each of a stored item, and every item stored under its own id. */
    ghost predicate Valid()
      reads this
    {
      && UniqueIds(recents)
      && (forall r :: r in recents ==> r.id in items)
      && (forall k :: k in items ==> items[k].id == k)
    }

    constructor()
      ensures Valid() && items == map[] && positions == map[] && recents == []
    {
      items := map[];
      positions := map[];
      recents := [];
    }

    /** `UpsertMediaAsync`: store the item and make `playedAt` its only play record. */
    method UpsertMedia(item: MediaItem, playedAt: int)
      requires Valid()
      modifies this`items, this`recents
      ensures Valid()
      ensures items == old(items)[item.id := item]
      ensures recents == Others(old(recents), item.id) + [Recent(playedAt, item.id)]
    {
      var kept := Others(recents, item.id);
      FilterMembers(recents, (x: Recent) => x.id != item.id);
      FilterUnique(recents, (x: Recent) => x.id != item.id);
      var next := kept + [Recent(playedAt, item.id)];
      forall i, j | 0 <= i < j < |next| ensures next[i].id != next[j].id {
        assert next[i] == kept[i] && kept[i] in kept;
      }
      items := items[item.id := item];
      recents := next;
    }

    /** `SaveProgressAsync`; the update time is not kept. */
    method SaveProgress(mediaItemId: string, position: int, updatedAt: int)
      requires Valid()
      modifies this`positions
      ensures Valid()
      ensures positions == old(positions)[mediaItemId := position]
      ensures GetLastPosition(mediaItemId) == Some(position)
      ensures forall id :: id != mediaItemId ==> GetLastPosition(id) == old(GetLastPosition(id))
    {
      positions := positions[mediaItemId := position];
    }

    /** `GetLastPositionAsync`: the saved position, or none for an id never saved. */
    function GetLastPosition(mediaItemId: string): (r: Option<int>)
      reads this
      ensures r.Some? <==> mediaItemId in positions
      ensures r.Some? ==> r.value == positions[mediaItemId]
    {
      if mediaItemId in positions then Some(positions[mediaItemId]) else None
    }

    function GetRecent(limit: int): (r: seq<MediaItem>)
      reads this
      ensures |r| <= if limit < 0 then 0 else limit
      ensures forall m :: m in r ==> m in items.Values
    {
      RecentItemsFacts(recents, items, limit);
      RecentItems(recents, items, limit)
    }
  }
}
