/**
 * `SmbBrowseCache`: an in-memory cache of directory pages with a time to
 * live and a least-recently-used bound. The source keeps a dictionary from
 * key to (list node, entry) beside a linked list of keys, most recent first;
 * the model keeps the dictionary as a `map` and the list as a `seq`, and
 * proves that the two stay in step.
 */
module SmbBrowseCache {
  import opened Wrappers
  import opened SmbTypes
  import opened Seqs
  import Clock

  /** `SmbBrowseCacheOptions(Ttl, Capacity)`, with the time to live in milliseconds. */
  datatype Options = Options(ttl: int, capacity: int)

  /** `SmbBrowseCacheOptions.Default`: five seconds and 64 entries. */
  const DefaultOptions: Options := Options(5000, 64)

  /** The options the constructor accepts: a positive capacity and a non-negative time to live. */
  predicate OptionsOk(o: Options) {
    o.capacity > 0 && o.ttl >= 0
  }

  const CapacityError := "Capacity must be positive."
  const TtlError := "Ttl must be non-negative."

  /** `Entry(StoredAtUtc, Page)`. */
  datatype Entry = Entry(storedAt: int, page: Page)

  /** The dictionary and the recency list, most recently used key first. */
  datatype View = View(entries: map<string, Entry>, lru: seq<string>)

  const Empty: View := View(map[], [])

  /** The dictionary's keys are exactly the list's elements, each listed once. */
  ghost predicate Agrees(v: View) {
    NoDup(v.lru) && v.entries.Keys == Elems(v.lru)
  }

  /** The cache invariant: agreement and the capacity bound. */
  ghost predicate Wf(v: View, capacity: int) {
    Agrees(v) && |v.lru| <= capacity
  }

  /** The result of `TryGet` and the contents it leaves behind. */
  datatype Lookup = Lookup(found: bool, page: Page, next: View)

  /** `RemoveNoLock` on a key: out of the dictionary and out of the list. */
  function Drop(v: View, key: string): View {
    View(v.entries - {key}, Without(v.lru, key))
  }

  /** The list refresh of a hit: the key moves to the front. */
  function Touch(v: View, key: string): View {
    View(v.entries, [key] + Without(v.lru, key))
  }

  /**
   * `TryGet(key)` at time `now`: an absent key misses; an entry older than
   * the time to live misses and is removed; anything else hits and becomes
   * the most recently used key.
   */
  function Get(v: View, key: string, now: int, ttl: int): (r: Lookup)
    ensures r.found <==> key in v.entries && now - v.entries[key].storedAt <= ttl
    ensures r.found ==> r.page == v.entries[key].page && r.next.entries == v.entries
    ensures r.found ==> r.next.lru == [key] + Without(v.lru, key)
    ensures !r.found ==> r.page == EmptyPage && r.next.entries == v.entries - {key}
    ensures !r.found ==> r.next.lru == if key in v.entries then Without(v.lru, key) else v.lru
  {
    if key !in v.entries then Lookup(false, EmptyPage, v)
    else if now - v.entries[key].storedAt > ttl then Lookup(false, EmptyPage, Drop(v, key))
    else Lookup(true, v.entries[key].page, Touch(v, key))
  }

  /** One step of the eviction loop: the least recently used key goes. */
  function DropLast(v: View): View
    requires v.lru != []
  {
    View(v.entries - {v.lru[|v.lru| - 1]}, v.lru[..|v.lru| - 1])
  }

  /** The eviction loop of `Set`: drop the last key while over capacity. */
  function Evict(v: View, capacity: int): View
    decreases |v.lru|
  {
    if |v.entries| > capacity && v.lru != [] then Evict(DropLast(v), capacity) else v
  }

  /** The first half of `Set(key, page)`: replace any old entry and put the key in front. */
  function Staged(v: View, key: string, page: Page, now: int): View {
    var d := if key in v.entries then Drop(v, key) else v;
    View(d.entries[key := Entry(now, page)], [key] + d.lru)
  }

  /** `Set(key, page)` at time `now`: the staged contents, then eviction. */
  function Put(v: View, key: string, page: Page, now: int, capacity: int): View {
    Evict(Staged(v, key, page, now), capacity)
  }

  // ---------------------------------------------------------------- lemmas

  /** In agreement the dictionary and the list have the same size. */
  lemma AgreesCard(v: View)
    requires Agrees(v)
    ensures |v.entries| == |v.lru|
  {
    NoDupCard(v.lru);
    assert |v.entries| == |v.entries.Keys|;
  }

  lemma DropAgrees(v: View, key: string)
    requires Agrees(v)
    ensures Agrees(Drop(v, key)) && key !in Drop(v, key).lru
  {
    WithoutFacts(v.lru, key);
    assert key !in Elems(Without(v.lru, key));
  }

  /** Putting an absent key in front, with its entry, keeps agreement. */
  lemma PushAgrees(v: View, key: string, e: Entry)
    requires Agrees(v) && key !in v.lru
    ensures Agrees(View(v.entries[key := e], [key] + v.lru))
  {
    ConsFacts(key, v.lru);
  }

  /** The number of keys eviction keeps. */
  function Kept(n: int, capacity: int): int {
    if n <= capacity then n else if capacity < 0 then 0 else capacity
  }

  /**
   * Eviction keeps the longest prefix of the recency list that fits, so it
   * removes the least recently used keys, and keeps their entries unchanged.
   */
  lemma {:induction false} EvictKeepsPrefix(v: View, capacity: int)
    requires Agrees(v)
    ensures var r := Evict(v, capacity);
      Agrees(r) && r.lru == v.lru[..Kept(|v.lru|, capacity)] &&
      forall k :: k in r.entries ==> k in v.entries && r.entries[k] == v.entries[k]
    decreases |v.lru|
  {
    AgreesCard(v);
    if |v.entries| > capacity && v.lru != [] {
      var w := DropLast(v);
      DropLastAgrees(v);
      EvictKeepsPrefix(w, capacity);
      KeptAfterDrop(v.lru, capacity);
    }
  }

  /** Dropping the last key of an over-full list keeps the same prefix for eviction. */
  lemma KeptAfterDrop(lru: seq<string>, capacity: int)
    requires lru != [] && |lru| > capacity
    ensures lru[..|lru| - 1][..Kept(|lru| - 1, capacity)] == lru[..Kept(|lru|, capacity)]
  {
  }

  lemma DropLastAgrees(v: View)
    requires Agrees(v) && v.lru != []
    ensures Agrees(DropLast(v))
  {
    DropLastFacts(v.lru);
  }

  /** A lookup keeps the cache invariant. */
  lemma GetWf(v: View, key: string, now: int, ttl: int, capacity: int)
    requires Wf(v, capacity)
    ensures Wf(Get(v, key, now, ttl).next, capacity)
    ensures Get(v, key, now, ttl).found ==> Get(v, key, now, ttl).next.lru[0] == key
  {
    if key in v.entries {
      assert key in v.lru by {
        assert key in Elems(v.lru);
      }
      DropAgrees(v, key);
      PushAgrees(Drop(v, key), key, v.entries[key]);
      assert Touch(v, key) == View(Drop(v, key).entries[key := v.entries[key]], [key] + Drop(v, key).lru);
    }
  }

  /** The staged contents agree, list the key first, then the old keys in order. */
  lemma StagedFacts(v: View, key: string, page: Page, now: int)
    requires Agrees(v)
    ensures Agrees(Staged(v, key, page, now))
    ensures Staged(v, key, page, now).lru == [key] + Without(v.lru, key)
    ensures Staged(v, key, page, now).entries[key] == Entry(now, page)
    ensures forall k :: k in Staged(v, key, page, now).entries && k != key ==> k in v.entries && Staged(v, key, page, now).entries[k] == v.entries[k]
  {
    if key in v.entries {
      DropAgrees(v, key);
      PushAgrees(Drop(v, key), key, Entry(now, page));
    } else {
      assert key !in Elems(v.lru);
      PushAgrees(v, key, Entry(now, page));
    }
  }

  /** What eviction keeps of contents whose first key is `key`. */
  lemma EvictFront(w: View, key: string, capacity: int)
    requires Agrees(w) && capacity > 0 && w.lru != [] && w.lru[0] == key
    ensures var r := Evict(w, capacity);
      Wf(r, capacity) && r.lru == Take(w.lru, capacity) && key in r.entries &&
      forall k :: k in r.entries ==> k in w.entries && r.entries[k] == w.entries[k]
  {
    EvictKeepsPrefix(w, capacity);
    var r := Evict(w, capacity);
    assert r.lru[0] == key;
    assert key in Elems(r.lru);
  }

  /**
   * `Set` keeps the cache invariant, leaves the key with its new entry at
   * the front, lists the previous keys in their old order behind it cut to
   * the capacity, and leaves every other kept entry as it was.
   */
  lemma PutFacts(v: View, key: string, page: Page, now: int, capacity: int)
    requires Wf(v, capacity) && capacity > 0
    ensures var r := Put(v, key, page, now, capacity);
      Wf(r, capacity) &&
      r.lru == Take([key] + Without(v.lru, key), capacity) &&
      key in r.entries && r.entries[key] == Entry(now, page) &&
      forall k :: k in r.entries && k != key ==> k in v.entries && r.entries[k] == v.entries[k]
  {
    var w := Staged(v, key, page, now);
    StagedFacts(v, key, page, now);
    EvictFront(w, key, capacity);
  }

  /** After `Set`, a lookup at the same instant hits and returns the page just stored. */
  lemma PutThenGet(v: View, key: string, page: Page, now: int, options: Options)
    requires OptionsOk(options) && Wf(v, options.capacity)
    ensures var g := Get(Put(v, key, page, now, options.capacity), key, now, options.ttl);
      g.found && g.page == page
  {
    PutFacts(v, key, page, now, options.capacity);
  }

  /** An entry whose age is exactly the time to live still hits; one millisecond more misses. */
  lemma TtlBoundary(v: View, key: string, page: Page, stored: int, options: Options)
    requires OptionsOk(options) && Wf(v, options.capacity)
    ensures Get(Put(v, key, page, stored, options.capacity), key, stored + options.ttl, options.ttl).found
    ensures !Get(Put(v, key, page, stored, options.capacity), key, stored + options.ttl + 1, options.ttl).found
  {
    PutFacts(v, key, page, stored, options.capacity);
  }

  /** Replacing the entry of a present key does not change the number of entries. */
  lemma PutExistingKeepsCount(v: View, key: string, page: Page, now: int, capacity: int)
    requires Wf(v, capacity) && capacity > 0 && key in v.entries
    ensures |Put(v, key, page, now, capacity).entries| == |v.entries|
  {
    PutFacts(v, key, page, now, capacity);
    var r := Put(v, key, page, now, capacity);
    assert key in v.lru by {
      assert key in Elems(v.lru);
    }
    AgreesCard(v);
    AgreesCard(r);
  }

  /** A full cache that receives a new key evicts exactly its least recently used key. */
  lemma PutEvictsLeastRecent(v: View, key: string, page: Page, now: int, capacity: int)
    requires Wf(v, capacity) && capacity > 0 && key !in v.entries && |v.lru| == capacity
    ensures var r := Put(v, key, page, now, capacity);
      r.lru == [key] + v.lru[..capacity - 1] && v.lru[capacity - 1] !in r.entries
  {
    PutFacts(v, key, page, now, capacity);
    var r := Put(v, key, page, now, capacity);
    assert key !in v.lru by {
      assert key !in Elems(v.lru);
    }
    assert ([key] + v.lru)[..capacity] == [key] + v.lru[..capacity - 1];
    assert v.lru[capacity - 1] !in r.lru by {
      forall i | 0 <= i < capacity - 1 ensures v.lru[i] != v.lru[capacity - 1] { }
    }
    assert v.lru[capacity - 1] !in Elems(r.lru);
  }

  // ---------------------------------------------------------------- the class

  class BrowseCache {
    const clock: Clock.ManualClock
    const options: Options
    var entries: map<string, Entry>
    var lru: seq<string>

    function Contents(): View
      reads this
    {
      View(entries, lru)
    }

    ghost predicate Valid()
      reads this
    {
      OptionsOk(options) && Wf(Contents(), options.capacity)
    }

    /** The constructor, for options it accepts; `Create` models the rejected ones. */
    constructor(clock: Clock.ManualClock, options: Options)
      requires OptionsOk(options)
      ensures Valid() && Contents() == Empty
      ensures this.clock == clock && this.options == options
    {
      this.clock := clock;
      this.options := options;
      entries := map[];
      lru := [];
    }

    /** `new SmbBrowseCache(timeProvider, options)`, with the exceptions as failures. */
    static method Create(clock: Clock.ManualClock, options: Options) returns (r: Result<BrowseCache, string>)
      ensures r.Success? <==> OptionsOk(options)
      ensures r.Failure? ==> r.error == if options.capacity <= 0 then CapacityError else TtlError
      ensures r.Success? ==> fresh(r.value) && r.value.Valid() && r.value.Contents() == Empty
      ensures r.Success? ==> r.value.clock == clock && r.value.options == options
    {
      if options.capacity <= 0 {
        return Failure(CapacityError);
      }
      if options.ttl < 0 {
        return Failure(TtlError);
      }
      var c := new BrowseCache(clock, options);
      return Success(c);
    }

    /** `RemoveNoLock(key, node)`: the node is the list position `at`. */
    method RemoveNoLock(key: string, at: nat)
      requires at < |lru| && lru[at] == key
      modifies this
      ensures entries == old(entries) - {key} && lru == RemoveAt(old(lru), at)
    {
      lru := RemoveAt(lru, at);
      entries := entries - {key};
    }

    /** `TryGet(key, out page)`. */
    method TryGet(key: string) returns (found: bool, page: Page)
      requires Valid()
      modifies this
      ensures Valid()
      ensures Lookup(found, page, Contents()) == Get(old(Contents()), key, clock.now, options.ttl)
    {
      ghost var v0 := Contents();
      GetWf(v0, key, clock.now, options.ttl, options.capacity);
      if key !in entries {
        return false, EmptyPage;
      }
      assert key in lru by {
        assert key in Elems(lru);
      }
      var e := entries[key];
      var now := clock.GetUtcNow();
      if now - e.storedAt > options.ttl {
        RemoveNoLock(key, IndexOf(lru, key));
        return false, EmptyPage;
      }
      lru := RemoveAt(lru, IndexOf(lru, key));
      lru := [key] + lru;
      return true, e.page;
    }

    /** `Set(key, page)`. */
    method Set(key: string, page: Page)
      requires Valid()
      modifies this
      ensures Valid()
      ensures Contents() == Put(old(Contents()), key, page, clock.now, options.capacity)
    {
      ghost var v0 := Contents();
      if key in entries {
        assert key in lru by {
          assert key in Elems(lru);
        }
        RemoveNoLock(key, IndexOf(lru, key));
      }
      lru := [key] + lru;
      entries := entries[key := Entry(clock.GetUtcNow(), page)];
      ghost var v2 := Contents();
      while |entries| > options.capacity
        invariant Evict(Contents(), options.capacity) == Evict(v2, options.capacity)
        decreases |lru|
      {
        if lru == [] {
          break;
        }
        var last := lru[|lru| - 1];
        assert RemoveAt(lru, |lru| - 1) == lru[..|lru| - 1];
        RemoveNoLock(last, |lru| - 1);
      }
      PutFacts(v0, key, page, clock.now, options.capacity);
    }
  }
}
