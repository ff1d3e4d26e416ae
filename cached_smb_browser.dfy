/**
 * `CachedSmbBrowser`: a decorator that answers listing requests from a
 * `SmbBrowseCache` when it can and asks the inner browser otherwise. The
 * inner browser is an oracle that counts its calls and answers with a page
 * or, standing for an exception, a failure.
 */
module CachedSmbBrowser {
  import opened Wrappers
  import opened Strings
  import opened SmbTypes
  import opened SmbBrowseCache
  import Clock
  import Seqs

  // ---------------------------------------------------------------- the cache key

  /** A field compared without case and surrounding whitespace. */
  function Loose(s: string): string {
    ToLower(Trim(s))
  }

  /** The eight key fields, in the order `BuildKey` joins them. */
  function KeyParts(req: BrowseRequest): (parts: seq<string>)
    ensures |parts| == 8
  {
    [Loose(req.host), Loose(req.share)] + KeyTail(req.path, req.pageSize, req.continuationToken,
                                                   req.username, req.domain, req.secretId)
  }

  /** The six fields after host and share. */
  function KeyTail(path: string, pageSize: int, token: Option<string>, username: Option<string>,
                   domain: Option<string>, secretId: Option<string>): (parts: seq<string>)
    ensures |parts| == 6
  {
    [Loose(path), IntToString(pageSize), Trim(OrEmpty(token)), Loose(OrEmpty(username)),
     Loose(OrEmpty(domain)), Trim(OrEmpty(secretId))]
  }

  /** `BuildKey(req)`: the key fields joined with `'|'`. */
  function BuildKey(req: BrowseRequest): string {
    Join("|", KeyParts(req))
  }

  /** No key field contains the separator. */
  predicate Unambiguous(req: BrowseRequest) {
    forall i :: 0 <= i < 8 ==> '|' !in KeyParts(req)[i]
  }

  /** When no field contains `'|'`, splitting the key at `'|'` gives the fields back. */
  lemma KeySplits(req: BrowseRequest)
    requires Unambiguous(req)
    ensures Split(BuildKey(req), '|') == KeyParts(req)
  {
    SplitJoin(KeyParts(req), '|');
  }

  /** For such requests equal keys mean equal fields, so a key stands for one normalised request. */
  lemma KeyDeterminesFields(a: BrowseRequest, b: BrowseRequest)
    requires Unambiguous(a) && Unambiguous(b)
    ensures BuildKey(a) == BuildKey(b) <==> KeyParts(a) == KeyParts(b)
  {
    if BuildKey(a) == BuildKey(b) {
      KeySplits(a);
      KeySplits(b);
    }
  }

  lemma PipeSpellings()
    ensures "a" + "|" + "b" == "a|b" && "b" + "|" + "c" == "b|c"
  {
  }

  /** Lower-case ASCII letters only. */
  predicate Plain(s: string) {
    forall i :: 0 <= i < |s| ==> 'a' <= s[i] <= 'z'
  }

  /** Moving a `'|'`-joined piece from the host into the share keeps the key. */
  lemma KeyCollides(r: BrowseRequest, x: string, y: string, z: string)
    requires Plain(x) && Plain(y) && Plain(z)
    ensures BuildKey(r.(host := x + "|" + y, share := z)) == BuildKey(r.(host := x, share := y + "|" + z))
  {
    LoosePiped(x, y);
    LoosePiped(y, z);
    LooseNoop(z);
    LooseNoop(x);
    JoinCollides(x, y, z, KeyTail(r.path, r.pageSize, r.continuationToken, r.username, r.domain, r.secretId));
  }

  /** Two plain pieces joined with `'|'` are already loose. */
  lemma LoosePiped(x: string, y: string)
    requires Plain(x) && Plain(y)
    ensures Loose(x + "|" + y) == x + "|" + y
  {
    LooseNoop(x + "|" + y);
  }

  /** Joining `x|y` and `z` or `x` and `y|z` in front of the same pieces gives the same string. */
  lemma JoinCollides(x: string, y: string, z: string, rest: seq<string>)
    requires rest != []
    ensures Join("|", [x + "|" + y, z] + rest) == Join("|", [x, y + "|" + z] + rest)
  {
    assert ([x + "|" + y, z] + rest)[1..] == [z] + rest;
    assert ([z] + rest)[1..] == rest;
    assert ([x, y + "|" + z] + rest)[1..] == [y + "|" + z] + rest;
    assert ([y + "|" + z] + rest)[1..] == rest;
    var j := Join("|", rest);
    calc {
      (x + "|" + y) + "|" + (z + "|" + j);
      x + "|" + ((y + "|" + z) + "|" + j);
    }
  }

  /** Two different requests whose fields contain `'|'` can share a key. */
  lemma KeyNotInjective(r: BrowseRequest)
    ensures var a := r.(host := "a|b", share := "c");
      var b := r.(host := "a", share := "b|c");
      a != b && BuildKey(a) == BuildKey(b)
  {
    KeyCollides(r, "a", "b", "c");
    PipeSpellings();
  }

  /** A field of lower-case letters and `'|'` is already loose. */
  lemma LooseNoop(s: string)
    requires forall i :: 0 <= i < |s| ==> 'a' <= s[i] <= 'z' || s[i] == '|'
    ensures Loose(s) == s
  {
    TrimByNoop(s, IsWhiteSpace);
    ToLowerKeeps(s);
  }

  /** The refresh flag is not part of the key. */
  lemma KeyIgnoresForce(req: BrowseRequest, force: bool)
    ensures KeyParts(req.(forceRefresh := force)) == KeyParts(req)
    ensures BuildKey(req.(forceRefresh := force)) == BuildKey(req)
  {
    assert KeyParts(req.(forceRefresh := force)) == KeyParts(req);
  }

  /** Upper-casing and padding a field with whitespace does not change its loose form. */
  lemma {:induction false} LooseIgnoresCaseAndPadding(s: string, pre: string, post: string)
    requires IsBlank(pre) && IsBlank(post)
    requires s != [] && !IsWhiteSpace(s[0]) && !IsWhiteSpace(s[|s| - 1])
    ensures Loose(pre + ToUpper(s) + post) == Loose(s)
  {
    var u := ToUpper(s);
    ToUpperAt(s, 0);
    ToUpperAt(s, |s| - 1);
    TrimByCore(pre, u, post, IsWhiteSpace);
    TrimByNoop(s, IsWhiteSpace);
    LowerOfUpper(s);
  }

  /** Lower-casing forgets an earlier upper-casing. */
  lemma {:induction false} LowerOfUpper(s: string)
    ensures ToLower(ToUpper(s)) == ToLower(s)
    decreases |s|
  {
    if s != [] {
      LowerOfUpper(s[1..]);
    }
  }

  /** Requests that differ in the case and padding of their host share one cache key. */
  lemma KeyIgnoresHostCase(req: BrowseRequest, pre: string, post: string)
    requires IsBlank(pre) && IsBlank(post)
    requires req.host != [] && !IsWhiteSpace(req.host[0]) && !IsWhiteSpace(req.host[|req.host| - 1])
    ensures BuildKey(req.(host := pre + ToUpper(req.host) + post)) == BuildKey(req)
  {
    LooseIgnoresCaseAndPadding(req.host, pre, post);
    assert KeyParts(req.(host := pre + ToUpper(req.host) + post)) == KeyParts(req);
  }

  // ---------------------------------------------------------------- serving a request

  /** What `ListAsync` answers, whether it called the inner browser, and the cache after it. */
  datatype Outcome = Outcome(reply: Result<Page, string>, called: bool, next: View)

  /**
   * `ListAsync(request)` against cache contents `v` at time `now`, where
   * `inner` is what the inner browser would answer. A forced request does
   * not look at the cache; a failed inner call writes nothing.
   */
  function Serve(v: View, req: BrowseRequest, now: int, options: Options, inner: Result<Page, string>): (r: Outcome)
    ensures r.called <==>
      req.forceRefresh || BuildKey(req) !in v.entries || now - v.entries[BuildKey(req)].storedAt > options.ttl
    ensures r.called ==> r.reply == inner
    ensures !r.called ==> r.reply == Success(v.entries[BuildKey(req)].page)
    ensures !r.called ==> r.next == Get(v, BuildKey(req), now, options.ttl).next
    ensures r.called && req.forceRefresh && inner.Failure? ==> r.next == v
    ensures r.called && !req.forceRefresh && inner.Failure? ==> r.next == Get(v, BuildKey(req), now, options.ttl).next
    ensures r.called && inner.Success? ==>
              r.next == Put(if req.forceRefresh then v else Get(v, BuildKey(req), now, options.ttl).next,
                            BuildKey(req), inner.value, now, options.capacity)
    ensures inner.Failure? ==> forall k :: k in r.next.entries ==> k in v.entries && r.next.entries[k] == v.entries[k]
  {
    var key := BuildKey(req);
    var g := Get(v, key, now, options.ttl);
    if !req.forceRefresh && g.found then Outcome(Success(g.page), false, g.next)
    else
      var v1 := if req.forceRefresh then v else g.next;
      match inner
      case Success(p) => Outcome(Success(p), true, Put(v1, key, p, now, options.capacity))
      case Failure(e) => Outcome(Failure(e), true, v1)
  }

  /** Serving keeps the cache invariant. */
  lemma ServeWf(v: View, req: BrowseRequest, now: int, options: Options, inner: Result<Page, string>)
    requires OptionsOk(options) && Wf(v, options.capacity)
    ensures Wf(Serve(v, req, now, options, inner).next, options.capacity)
  {
    var key := BuildKey(req);
    GetWf(v, key, now, options.ttl, options.capacity);
    var g := Get(v, key, now, options.ttl);
    if inner.Success? {
      PutFacts(v, key, inner.value, now, options.capacity);
      PutFacts(g.next, key, inner.value, now, options.capacity);
    }
  }

  /** A successful inner call stores the fresh page, stamped with the current time, under the key. */
  lemma ServeStores(v: View, req: BrowseRequest, now: int, options: Options, p: Page)
    requires OptionsOk(options) && Wf(v, options.capacity)
    ensures var o := Serve(v, req, now, options, Success(p));
      o.called ==> BuildKey(req) in o.next.entries && o.next.entries[BuildKey(req)] == Entry(now, p)
  {
    var key := BuildKey(req);
    var g := Get(v, key, now, options.ttl);
    if req.forceRefresh {
      PutFacts(v, key, p, now, options.capacity);
    } else if !g.found {
      GetWf(v, key, now, options.ttl, options.capacity);
      PutFacts(g.next, key, p, now, options.capacity);
    }
  }

  /**
   * A successful inner call, forced or not, stores the fresh page: a
   * following non-forced request with the same key at the same time is
   * answered with it and without calling the inner browser.
   */
  lemma ServeStoresFresh(v: View, req: BrowseRequest, req2: BrowseRequest, now: int, options: Options,
                         p: Page, inner2: Result<Page, string>)
    requires OptionsOk(options) && Wf(v, options.capacity)
    requires BuildKey(req2) == BuildKey(req) && !req2.forceRefresh
    ensures var o := Serve(v, req, now, options, Success(p));
      o.called ==>
        var o2 := Serve(o.next, req2, now, options, inner2);
        !o2.called && o2.reply == Success(p)
  {
    ServeStores(v, req, now, options, p);
  }

  /** An entry stored at `stored` is fetched again once more than the time to live has passed. */
  lemma ServeRefetchesAfterTtl(v: View, req: BrowseRequest, stored: int, later: int, options: Options,
                               p: Page, inner2: Result<Page, string>)
    requires OptionsOk(options) && Wf(v, options.capacity)
    requires later - stored > options.ttl
    ensures var o := Serve(v, req, stored, options, Success(p));
      o.called ==> Serve(o.next, req, later, options, inner2).called
  {
    ServeStores(v, req, stored, options, p);
  }

  // ---------------------------------------------------------------- the objects

  /** The inner `ISmbBrowser`: counts its calls and answers with `reply`. */
  class InnerBrowser {
    var calls: nat
    var reply: Result<Page, string>

    constructor(reply: Result<Page, string>)
      ensures calls == 0 && this.reply == reply
    {
      calls := 0;
      this.reply := reply;
    }

    method ListAsync(req: BrowseRequest) returns (r: Result<Page, string>)
      modifies this
      ensures r == reply && reply == old(reply) && calls == old(calls) + 1
    {
      calls := calls + 1;
      r := reply;
    }

    /** Changes what later calls answer, like assigning `ItemsToReturn`. */
    method SetReply(reply: Result<Page, string>)
      modifies this
      ensures this.reply == reply && calls == old(calls)
    {
      this.reply := reply;
    }
  }

  class CachingBrowser {
    const inner: InnerBrowser
    const cache: BrowseCache

    constructor(inner: InnerBrowser, cache: BrowseCache)
      ensures this.inner == inner && this.cache == cache
    {
      this.inner := inner;
      this.cache := cache;
    }

    /** `ListAsync(request)`, proved to behave as `Serve`. */
    method ListAsync(req: BrowseRequest) returns (r: Result<Page, string>)
      requires cache.Valid()
      modifies cache, inner
      ensures cache.Valid() && inner.reply == old(inner.reply)
      ensures var o := Serve(old(cache.Contents()), req, cache.clock.now, cache.options, old(inner.reply));
        r == o.reply && cache.Contents() == o.next &&
        inner.calls == old(inner.calls) + (if o.called then 1 else 0)
    {
      var key := BuildKey(req);
      if !req.forceRefresh {
        var found, cached := cache.TryGet(key);
        if found {
          return Success(cached);
        }
      }
      r := inner.ListAsync(req);
      if r.Success? {
        cache.Set(key, r.value);
      }
    }
  }

  /** The empty cache satisfies the invariant. */
  lemma EmptyWf(capacity: int)
    requires capacity > 0
    ensures Wf(Empty, capacity)
  {
    assert Seqs.Elems<string>([]) == {};
  }

  /**
   * The forced-refresh scenario on the specification: a first call stores
   * page `a`; a forced call with the inner browser now answering `b` returns
   * `b`; a third, ordinary call returns `b` from the cache.
   */
  lemma ForceRefreshOutcomes(req: BrowseRequest, a: Page, b: Page, now: int, options: Options)
    requires OptionsOk(options) && !req.forceRefresh
    ensures var o1 := Serve(Empty, req, now, options, Success(a));
      var o2 := Serve(o1.next, req.(forceRefresh := true), now, options, Success(b));
      var o3 := Serve(o2.next, req, now, options, Success(b));
      o1.called && o1.reply == Success(a) && o2.called && o2.reply == Success(b) &&
      !o3.called && o3.reply == Success(b)
  {
    var o1 := Serve(Empty, req, now, options, Success(a));
    EmptyWf(options.capacity);
    ServeWf(Empty, req, now, options, Success(a));
    KeyIgnoresForce(req, true);
    ServeStoresFresh(o1.next, req.(forceRefresh := true), req, now, options, b, Success(b));
  }

  /**
   * The expiry scenario on the specification: with the default time to
   * live, a second call six seconds after the first calls the inner browser again.
   */
  lemma TtlExpiryOutcomes(req: BrowseRequest, a: Page, start: int)
    requires !req.forceRefresh
    ensures var o1 := Serve(Empty, req, start, DefaultOptions, Success(a));
      o1.called && Serve(o1.next, req, start + 6000, DefaultOptions, Success(a)).called
  {
    EmptyWf(DefaultOptions.capacity);
    ServeRefetchesAfterTtl(Empty, req, start, start + 6000, DefaultOptions, a, Success(a));
  }
}
