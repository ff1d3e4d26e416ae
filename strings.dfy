/**
 * The .NET string operations the core relies on, on `string` = `seq<char>`:
 * `char.IsWhiteSpace`, `Trim`, `Trim(c)`, `Replace(a, b)`, `Split(c)`,
 * `Split(c, 2)`, `IndexOf`, `string.Join`, `ToLowerInvariant` /
 * `OrdinalIgnoreCase` (ASCII letters only) and `int.ToString()`.
 */
module Strings {
  import opened Wrappers
  import Seqs

  /** `char.IsWhiteSpace`: the Unicode separators plus U+0009..U+000D, U+0085. */
  predicate IsWhiteSpace(c: char) {
    var n := c as int;
    (0x09 <= n <= 0x0D) || n == 0x20 || n == 0x85 || n == 0xA0 || n == 0x1680 ||
    (0x2000 <= n <= 0x200A) || n == 0x2028 || n == 0x2029 || n == 0x202F ||
    n == 0x205F || n == 0x3000
  }

  /** `string.IsNullOrWhiteSpace` of a non-null string. */
  predicate IsBlank(s: string) {
    forall i :: 0 <= i < |s| ==> IsWhiteSpace(s[i])
  }

  /** `IsNullOrWhiteSpace` of a nullable string. */
  predicate IsNullOrBlank(s: Option<string>) {
    s.None? || IsBlank(s.value)
  }

  /** `IsNullOrEmpty` of a nullable string. */
  predicate IsNullOrEmpty(s: Option<string>) {
    s.None? || s.value == ""
  }

  /** `s ?? string.Empty`. */
  function OrEmpty(s: Option<string>): string {
    s.GetOr("")
  }

  // ---------------------------------------------------------------- trimming

  /** The number of leading characters satisfying `p`. */
  function LeadCount(s: string, p: char -> bool): (n: nat)
    ensures n <= |s|
    ensures n < |s| ==> !p(s[n])
    decreases |s|
  {
    if s != [] && p(s[0]) then 1 + LeadCount(s[1..], p) else 0
  }

  /** Every character before `LeadCount` satisfies `p`. */
  lemma {:induction false} LeadCountRun(s: string, p: char -> bool)
    ensures forall i :: 0 <= i < LeadCount(s, p) ==> p(s[i])
    decreases |s|
  {
    if s != [] && p(s[0]) {
      LeadCountRun(s[1..], p);
    }
  }

  /** The number of trailing characters satisfying `p`. */
  function TrailCount(s: string, p: char -> bool): (n: nat)
    ensures n <= |s|
    ensures n < |s| ==> !p(s[|s| - 1 - n])
    decreases |s|
  {
    if s != [] && p(s[|s| - 1]) then 1 + TrailCount(s[..|s| - 1], p) else 0
  }

  /** Every character in the last `TrailCount` positions satisfies `p`. */
  lemma {:induction false} TrailCountRun(s: string, p: char -> bool)
    ensures forall i :: |s| - TrailCount(s, p) <= i < |s| ==> p(s[i])
    decreases |s|
  {
    if s != [] && p(s[|s| - 1]) {
      TrailCountRun(s[..|s| - 1], p);
    }
  }

  /** `Trim(chars)`: drops the characters satisfying `p` from both ends. */
  function TrimBy(s: string, p: char -> bool): (r: string)
    ensures |r| <= |s|
    ensures r != [] ==> !p(r[0]) && !p(r[|r| - 1])
  {
    var lead := LeadCount(s, p);
    if lead == |s| then []
    else
      var trail := TrailCount(s, p);
      assert !p(s[lead]);
      TrailCountRun(s, p);
      s[lead..|s| - trail]
  }

  /** Trimming empties exactly the strings made only of trimmable characters. */
  lemma TrimByEmpty(s: string, p: char -> bool)
    ensures TrimBy(s, p) == [] <==> forall i :: 0 <= i < |s| ==> p(s[i])
  {
    var lead := LeadCount(s, p);
    LeadCountRun(s, p);
    if lead < |s| {
      assert !p(s[lead]);
      TrailCountRun(s, p);
    }
  }

  /** Trimming only removes characters: one absent before is absent after. */
  lemma TrimByAbsent(s: string, p: char -> bool, c: char)
    ensures c !in s ==> c !in TrimBy(s, p)
  {
    var r := TrimBy(s, p);
    var lead := LeadCount(s, p);
    if r != [] {
      TrailCountRun(s, p);
      assert !p(s[lead]);
      forall i | 0 <= i < |r| ensures r[i] == s[lead + i] {
      }
    }
  }

  /** Trimming a string whose ends are already not trimmable changes nothing. */
  lemma TrimByNoop(s: string, p: char -> bool)
    requires s != [] ==> !p(s[0]) && !p(s[|s| - 1])
    ensures TrimBy(s, p) == s
  {
    if s != [] {
      assert LeadCount(s, p) == 0;
      assert TrailCount(s, p) == 0;
    }
  }

  /** Characters before the last one that `p` rejects do not affect the trailing count. */
  lemma {:induction false} TrailCountAppend(a: string, b: string, p: char -> bool)
    requires a != [] && !p(a[|a| - 1])
    ensures TrailCount(a + b, p) == TrailCount(b, p)
    decreases |b|
  {
    var ab := a + b;
    if b == [] {
      assert ab == a;
    } else {
      assert ab[|ab| - 1] == b[|b| - 1];
      if p(b[|b| - 1]) {
        assert ab[..|ab| - 1] == a + b[..|b| - 1];
        TrailCountAppend(a, b[..|b| - 1], p);
      }
    }
  }

  /**
   * Trimming `a + b`, where `a` has untrimmable ends, keeps all of `a` and
   * cuts only the trailing run of `b`.
   */
  lemma TrimByKeepsHead(a: string, b: string, p: char -> bool)
    requires a != [] && !p(a[0]) && !p(a[|a| - 1])
    ensures TrimBy(a + b, p) == a + b[..|b| - TrailCount(b, p)]
  {
    SplitTrailingRun(b, p);
    TrimByHeadRun(a, b, p, TrailCount(b, p));
  }

  /** `TrimByKeepsHead` for a trailing run of length `k`. */
  lemma TrimByHeadRun(a: string, b: string, p: char -> bool, k: nat)
    requires a != [] && !p(a[0]) && !p(a[|a| - 1])
    requires k <= |b|
    requires forall i :: |b| - k <= i < |b| ==> p(b[i])
    requires k < |b| ==> !p(b[|b| - 1 - k])
    ensures TrimBy(a + b, p) == a + b[..|b| - k]
  {
    var kept, run := b[..|b| - k], b[|b| - k..];
    assert kept != [] ==> kept[|kept| - 1] == b[|b| - 1 - k];
    CoreEndsBy(a, kept, p);
    RunOfEnd(b, run, k, p);
    TrimByAlone(a + kept, run, p);
    Seqs.TakeDrop(b, |b| - k);
    Seqs.Assoc(a, kept, run);
  }

  /** The last `k` characters of `b`, all trimmable, as a string of their own. */
  lemma RunOfEnd(b: string, run: string, k: nat, p: char -> bool)
    requires k <= |b| && run == b[|b| - k..]
    requires forall i :: |b| - k <= i < |b| ==> p(b[i])
    ensures forall i :: 0 <= i < |run| ==> p(run[i])
  {
    forall i | 0 <= i < |run| ensures p(run[i]) {
      assert run[i] == b[|b| - k + i];
    }
  }

  /** `TrimByCore` with nothing in front. */
  lemma TrimByAlone(core: string, post: string, p: char -> bool)
    requires forall i :: 0 <= i < |post| ==> p(post[i])
    requires core != [] && !p(core[0]) && !p(core[|core| - 1])
    ensures TrimBy(core + post, p) == core
  {
    TrimByCore([], core, post, p);
    EmptyFront(core, post);
  }

  lemma EmptyFront(x: string, y: string)
    ensures [] + x + y == x + y
  {
  }

  lemma CoreEndsBy(a: string, kept: string, p: char -> bool)
    requires a != [] && !p(a[0]) && !p(a[|a| - 1])
    requires kept != [] ==> !p(kept[|kept| - 1])
    ensures (a + kept)[0] == a[0]
    ensures !p((a + kept)[|a + kept| - 1])
  {
    if kept != [] {
      assert (a + kept)[|a + kept| - 1] == kept[|kept| - 1];
    }
  }

  /** A leading run of `p` characters adds its length to the leading count. */
  lemma {:induction false} LeadCountSkip(pre: string, b: string, p: char -> bool)
    requires forall i :: 0 <= i < |pre| ==> p(pre[i])
    ensures LeadCount(pre + b, p) == |pre| + LeadCount(b, p)
    decreases |pre|
  {
    if pre != [] {
      assert (pre + b)[0] == pre[0];
      assert (pre + b)[1..] == pre[1..] + b;
      LeadCountSkip(pre[1..], b, p);
    } else {
      assert pre + b == b;
    }
  }

  /** A string made only of `p` characters is all trailing run. */
  lemma {:induction false} TrailCountAll(s: string, p: char -> bool)
    requires forall i :: 0 <= i < |s| ==> p(s[i])
    ensures TrailCount(s, p) == |s|
    decreases |s|
  {
    if s != [] {
      TrailCountAll(s[..|s| - 1], p);
    }
  }

  /**
   * Trimming `pre + a + b`, where `pre` is white space and `a` has no white
   * space at its ends, keeps `a` and cuts only the trailing white space of `b`.
   */
  lemma TrimAfterSpace(pre: string, a: string, b: string)
    requires forall i :: 0 <= i < |pre| ==> IsWhiteSpace(pre[i])
    requires a != [] && !IsWhiteSpace(a[0]) && !IsWhiteSpace(a[|a| - 1])
    ensures Trim(pre + a + b) == a + b[..|b| - TrailCount(b, IsWhiteSpace)]
  {
    SplitTrailingRun(b, IsWhiteSpace);
    TrimAfterSpaceRun(pre, a, b, TrailCount(b, IsWhiteSpace));
  }

  /** `TrimAfterSpace` for a trailing run of white space of length `k`. */
  lemma TrimAfterSpaceRun(pre: string, a: string, b: string, k: nat)
    requires forall i :: 0 <= i < |pre| ==> IsWhiteSpace(pre[i])
    requires a != [] && !IsWhiteSpace(a[0]) && !IsWhiteSpace(a[|a| - 1])
    requires k <= |b|
    requires forall i :: |b| - k <= i < |b| ==> IsWhiteSpace(b[i])
    requires k < |b| ==> !IsWhiteSpace(b[|b| - 1 - k])
    ensures Trim(pre + a + b) == a + b[..|b| - k]
  {
    var kept, run := b[..|b| - k], b[|b| - k..];
    assert kept != [] ==> kept[|kept| - 1] == b[|b| - 1 - k];
    CoreEndsBy(a, kept, IsWhiteSpace);
    RunOfEnd(b, run, k, IsWhiteSpace);
    TrimByCore(pre, a + kept, run, IsWhiteSpace);
    Seqs.TakeDrop(b, |b| - k);
    Regroup(pre, a, kept, run);
  }

  lemma Regroup(pre: string, a: string, kept: string, run: string)
    ensures pre + (a + kept) + run == pre + a + (kept + run)
  {
  }

  /** A string is what precedes its trailing run, then the run, which is all trimmable. */
  lemma SplitTrailingRun(b: string, p: char -> bool)
    ensures forall i :: |b| - TrailCount(b, p) <= i < |b| ==> p(b[i])
    ensures TrailCount(b, p) < |b| ==> !p(b[|b| - 1 - TrailCount(b, p)])
  {
    TrailCountRun(b, p);
  }

  /** Trimming `pre + core + post` leaves `core` when the outer parts are all trimmable and `core` has untrimmable ends. */
  lemma TrimByCore(pre: string, core: string, post: string, p: char -> bool)
    requires forall i :: 0 <= i < |pre| ==> p(pre[i])
    requires forall i :: 0 <= i < |post| ==> p(post[i])
    requires core != [] && !p(core[0]) && !p(core[|core| - 1])
    ensures TrimBy(pre + core + post, p) == core
  {
    var s := pre + core + post;
    assert s == pre + (core + post);
    LeadCountSkip(pre, core + post, p);
    assert LeadCount(core + post, p) == 0 by {
      assert (core + post)[0] == core[0];
    }
    TrailCountAppend(pre + core, post, p);
    TrailCountAll(post, p);
    assert s[|pre|..|s| - |post|] == core;
  }

  /** `string.Trim()`. */
  function Trim(s: string): (r: string)
    ensures |r| <= |s|
    ensures r != [] ==> !IsWhiteSpace(r[0]) && !IsWhiteSpace(r[|r| - 1])
  {
    TrimBy(s, IsWhiteSpace)
  }

  /** `Trim()` gives the empty string exactly for a blank input. */
  lemma TrimEmpty(s: string)
    ensures Trim(s) == [] <==> IsBlank(s)
  {
    TrimByEmpty(s, IsWhiteSpace);
  }

  // ---------------------------------------------------------------- mapping

  /** `Replace(a, b)` on characters. */
  function Replace(s: string, a: char, b: char): (r: string)
    ensures |r| == |s|
    decreases |s|
  {
    if s == [] then [] else [if s[0] == a then b else s[0]] + Replace(s[1..], a, b)
  }

  lemma {:induction false} ReplaceAt(s: string, a: char, b: char, i: int)
    requires 0 <= i < |s|
    ensures Replace(s, a, b)[i] == if s[i] == a then b else s[i]
    decreases |s|
  {
    if i > 0 {
      ReplaceAt(s[1..], a, b, i - 1);
    }
  }

  lemma ReplaceRemoves(s: string, a: char, b: char)
    requires a != b
    ensures a !in Replace(s, a, b)
  {
    var r := Replace(s, a, b);
    forall i | 0 <= i < |r| ensures r[i] != a {
      ReplaceAt(s, a, b, i);
    }
  }

  /** Replacing a character that does not occur changes nothing. */
  lemma {:induction false} ReplaceAbsent(s: string, a: char, b: char)
    requires a !in s
    ensures Replace(s, a, b) == s
    decreases |s|
  {
    if s != [] {
      ReplaceAbsent(s[1..], a, b);
      assert s == [s[0]] + s[1..];
    }
  }

  /** Replacement works piecewise. */
  lemma {:induction false} ReplaceAppend(s: string, t: string, a: char, b: char)
    ensures Replace(s + t, a, b) == Replace(s, a, b) + Replace(t, a, b)
    decreases |s|
  {
    if s != [] {
      assert (s + t)[0] == s[0];
      assert (s + t)[1..] == s[1..] + t;
      ReplaceAppend(s[1..], t, a, b);
    } else {
      assert s + t == t;
    }
  }

  function ToLowerChar(c: char): char {
    if 'A' <= c <= 'Z' then (c as int + 32) as char else c
  }

  function ToUpperChar(c: char): char {
    if 'a' <= c <= 'z' then (c as int - 32) as char else c
  }

  /** `ToLowerInvariant`, restricted to ASCII letters. */
  function ToLower(s: string): (r: string)
    ensures |r| == |s|
    decreases |s|
  {
    if s == [] then [] else [ToLowerChar(s[0])] + ToLower(s[1..])
  }

  /** The character-by-character key used by `OrdinalIgnoreCase`. */
  function ToUpper(s: string): (r: string)
    ensures |r| == |s|
    decreases |s|
  {
    if s == [] then [] else [ToUpperChar(s[0])] + ToUpper(s[1..])
  }

  lemma {:induction false} ToUpperAt(s: string, i: int)
    requires 0 <= i < |s|
    ensures ToUpper(s)[i] == ToUpperChar(s[i])
    decreases |s|
  {
    if i > 0 {
      ToUpperAt(s[1..], i - 1);
    }
  }

  lemma {:induction false} ToLowerAt(s: string, i: int)
    requires 0 <= i < |s|
    ensures ToLower(s)[i] == ToLowerChar(s[i])
    decreases |s|
  {
    if i > 0 {
      ToLowerAt(s[1..], i - 1);
    }
  }

  /** Lower-casing leaves a string without capital letters alone. */
  lemma {:induction false} ToLowerKeeps(s: string)
    requires forall i :: 0 <= i < |s| ==> !('A' <= s[i] <= 'Z')
    ensures ToLower(s) == s
    decreases |s|
  {
    if s != [] {
      ToLowerKeeps(s[1..]);
      assert s == [s[0]] + s[1..];
    }
  }

  predicate EqualsIgnoreCase(a: string, b: string) {
    ToUpper(a) == ToUpper(b)
  }

  predicate StartsWith(s: string, prefix: string) {
    |prefix| <= |s| && s[..|prefix|] == prefix
  }

  predicate StartsWithIgnoreCase(s: string, prefix: string) {
    |prefix| <= |s| && EqualsIgnoreCase(s[..|prefix|], prefix)
  }

  predicate EndsWithIgnoreCase(s: string, suffix: string) {
    |suffix| <= |s| && EqualsIgnoreCase(s[|s| - |suffix|..], suffix)
  }

  // ---------------------------------------------------------------- searching

  /** `IndexOf(c)`: the first position of `c`, or none. */
  function IndexOfChar(s: string, c: char): (r: Option<nat>)
    ensures r.Some? ==> r.value < |s| && s[r.value] == c && c !in s[..r.value]
    ensures r.None? <==> c !in s
    decreases |s|
  {
    if s == [] then None
    else if s[0] == c then Some(0)
    else
      match IndexOfChar(s[1..], c)
      case None => None
      case Some(k) =>
        assert s[..k + 1] == [s[0]] + s[1..][..k];
        Some(k + 1)
  }

  /** The length of the longest prefix with no character satisfying `stop`. */
  function Span(s: string, stop: char -> bool): (r: nat)
    ensures r <= |s|
    decreases |s|
  {
    if s == [] || stop(s[0]) then 0 else 1 + Span(s[1..], stop)
  }

  /** The span is free of stop characters and ends at one, or at the end. */
  lemma {:induction false} SpanStops(s: string, stop: char -> bool)
    ensures forall i :: 0 <= i < Span(s, stop) ==> !stop(s[i])
    ensures Span(s, stop) < |s| ==> stop(s[Span(s, stop)])
    decreases |s|
  {
    if s != [] && !stop(s[0]) {
      SpanStops(s[1..], stop);
      assert forall i :: 1 <= i < Span(s, stop) ==> s[i] == s[1..][i - 1];
    }
  }

  /** `Span` walks over a prefix free of stop characters. */
  lemma {:induction false} SpanSkip(a: string, b: string, stop: char -> bool)
    requires forall i :: 0 <= i < |a| ==> !stop(a[i])
    ensures Span(a + b, stop) == |a| + Span(b, stop)
    decreases |a|
  {
    if a != [] {
      assert (a + b)[1..] == a[1..] + b;
      SpanSkip(a[1..], b, stop);
    } else {
      assert a + b == b;
    }
  }

  /** `LastIndexOf(c)`: the last position of `c`, or none. */
  function LastIndexOfChar(s: string, c: char): (r: Option<nat>)
    ensures r.Some? ==> r.value < |s| && s[r.value] == c && c !in s[r.value + 1..]
    ensures r.None? <==> c !in s
    decreases |s|
  {
    if s == [] then None
    else if s[|s| - 1] == c then Some(|s| - 1)
    else
      assert s == s[..|s| - 1] + [s[|s| - 1]];
      LastIndexOfChar(s[..|s| - 1], c)
  }

  predicate OccursAt(s: string, sub: string, i: nat) {
    i + |sub| <= |s| && s[i..i + |sub|] == sub
  }

  /** `IndexOf(sub, StringComparison.Ordinal)` from position `from` on. */
  function IndexOfFrom(s: string, sub: string, from: nat): (r: Option<nat>)
    requires from <= |s|
    ensures r.Some? ==> from <= r.value && OccursAt(s, sub, r.value)
    ensures r.Some? ==> forall j :: from <= j < r.value ==> !OccursAt(s, sub, j)
    ensures r.None? ==> forall j :: from <= j <= |s| ==> !OccursAt(s, sub, j)
    decreases |s| - from
  {
    if OccursAt(s, sub, from) then Some(from)
    else if from == |s| then None
    else IndexOfFrom(s, sub, from + 1)
  }

  function IndexOf(s: string, sub: string): (r: Option<nat>)
    ensures r.Some? ==> OccursAt(s, sub, r.value)
    ensures r.Some? ==> forall j :: 0 <= j < r.value ==> !OccursAt(s, sub, j)
    ensures r.None? ==> forall j :: 0 <= j <= |s| ==> !OccursAt(s, sub, j)
  {
    IndexOfFrom(s, sub, 0)
  }

  /** `Contains(sub, StringComparison.Ordinal)`. */
  predicate Contains(s: string, sub: string) {
    IndexOf(s, sub).Some?
  }

  /** The number of occurrences of `c`. */
  function CountChar(s: string, c: char): nat
    decreases |s|
  {
    if s == [] then 0 else (if s[0] == c then 1 else 0) + CountChar(s[1..], c)
  }

  lemma {:induction false} CountCharAppend(s: string, t: string, c: char)
    ensures CountChar(s + t, c) == CountChar(s, c) + CountChar(t, c)
    decreases |s|
  {
    if s != [] {
      assert (s + t)[1..] == s[1..] + t;
      assert CountChar(s + t, c) == (if s[0] == c then 1 else 0) + CountChar(s[1..] + t, c);
      CountCharAppend(s[1..], t, c);
    } else {
      assert s + t == t;
    }
  }

  lemma {:induction false} CountCharAbsent(s: string, c: char)
    requires c !in s
    ensures CountChar(s, c) == 0
    decreases |s|
  {
    if s != [] {
      CountCharAbsent(s[1..], c);
    }
  }

  // ---------------------------------------------------------------- split and join

  /** `Split(c)`: every piece, empty ones included. */
  function Split(s: string, c: char): (r: seq<string>)
    ensures |r| >= 1
    decreases |s|
  {
    match IndexOfChar(s, c)
    case None => [s]
    case Some(k) => [s[..k]] + Split(s[k + 1..], c)
  }

  /** `Split(c, StringSplitOptions.RemoveEmptyEntries)`. */
  function SplitNonEmpty(s: string, c: char): seq<string>
  {
    Seqs.Filter(Split(s, c), (x: string) => x != "")
  }

  /** No piece of `Split(c)` contains `c`. */
  lemma {:induction false} SplitPieces(s: string, c: char)
    ensures forall i :: 0 <= i < |Split(s, c)| ==> c !in Split(s, c)[i]
    decreases |s|
  {
    match IndexOfChar(s, c)
    case None =>
    case Some(k) =>
      SplitPieces(s[k + 1..], c);
  }

  /** The pieces kept by `RemoveEmptyEntries` are non-empty and free of `c`. */
  lemma SplitNonEmptyPieces(s: string, c: char)
    ensures forall i :: 0 <= i < |SplitNonEmpty(s, c)| ==>
      SplitNonEmpty(s, c)[i] != "" && c !in SplitNonEmpty(s, c)[i]
  {
    var r := SplitNonEmpty(s, c);
    SplitPieces(s, c);
    Seqs.FilterMembers(Split(s, c), (x: string) => x != "");
    forall i | 0 <= i < |r| ensures r[i] != "" && c !in r[i] {
      assert r[i] in r;
    }
  }

  /** The first `c`-free piece of `a + [c] + b` is `a`; the rest is split from `b`. */
  lemma SplitCons(a: string, b: string, c: char)
    requires c !in a
    ensures Split(a + [c] + b, c) == [a] + Split(b, c)
  {
    IndexOfCharAfter(a, b, c);
    var s := a + [c] + b;
    assert s[..|a|] == a;
    assert s[|a| + 1..] == b;
  }

  /** The same for `RemoveEmptyEntries`: an empty leading piece is dropped. */
  lemma SplitNonEmptyCons(a: string, b: string, c: char)
    requires c !in a
    ensures SplitNonEmpty(a + [c] + b, c) == (if a == [] then [] else [a]) + SplitNonEmpty(b, c)
  {
    SplitCons(a, b, c);
    var parts := [a] + Split(b, c);
    assert parts[1..] == Split(b, c);
  }

  /** A non-empty string without `c` is its own single piece. */
  lemma SplitNonEmptySingle(a: string, c: char)
    requires c !in a && a != []
    ensures SplitNonEmpty(a, c) == [a]
  {
    assert IndexOfChar(a, c).None?;
    assert Split(a, c) == [a];
  }

  /** `Split(c, 2)`: the text before and after the first `c`, if there is one. */
  function SplitFirst(s: string, c: char): (r: Option<(string, string)>)
    ensures r.None? <==> c !in s
    ensures r.Some? ==> c !in r.value.0 && s == r.value.0 + [c] + r.value.1
  {
    match IndexOfChar(s, c)
    case None => None
    case Some(k) =>
      assert s == s[..k] + [c] + s[k + 1..];
      Some((s[..k], s[k + 1..]))
  }

  /** `string.Join(sep, parts)`. */
  function Join(sep: string, parts: seq<string>): string
    decreases |parts|
  {
    if parts == [] then ""
    else if |parts| == 1 then parts[0]
    else parts[0] + sep + Join(sep, parts[1..])
  }

  /** Splitting a string at `c` and joining the pieces with `c` gives it back. */
  lemma {:induction false} JoinSplit(s: string, c: char)
    ensures Join([c], Split(s, c)) == s
    decreases |s|
  {
    var k := IndexOfChar(s, c);
    if k.Some? {
      var before, after := s[..k.value], s[k.value + 1..];
      CutAt(s, k.value, c);
      SplitCons(before, after, c);
      JoinSplit(after, c);
      JoinPrepend(before, Split(after, c), c);
    }
  }

  /** A string is the text before its `k`-th character, that character and the text after. */
  lemma CutAt(s: string, k: nat, c: char)
    requires k < |s| && s[k] == c
    ensures s == s[..k] + [c] + s[k + 1..]
  {
  }

  /** Joining with one more leading piece puts it and the separator in front. */
  lemma JoinPrepend(a: string, rest: seq<string>, c: char)
    requires |rest| >= 1
    ensures Join([c], [a] + rest) == a + [c] + Join([c], rest)
  {
    assert ([a] + rest)[1..] == rest;
  }

  /** The first `c` in `a + [c] + b` is the one after `a` when `a` has none. */
  lemma {:induction false} IndexOfCharAfter(a: string, b: string, c: char)
    requires c !in a
    ensures IndexOfChar(a + [c] + b, c) == Some(|a|)
    decreases |a|
  {
    if a != [] {
      assert (a + [c] + b)[1..] == a[1..] + [c] + b;
      IndexOfCharAfter(a[1..], b, c);
    }
  }

  /** Joining pieces that do not contain `c` and splitting at `c` gives them back. */
  lemma {:induction false} SplitJoin(parts: seq<string>, c: char)
    requires |parts| >= 1
    requires forall i :: 0 <= i < |parts| ==> c !in parts[i]
    ensures Split(Join([c], parts), c) == parts
    decreases |parts|
  {
    if |parts| == 1 {
      assert IndexOfChar(parts[0], c).None?;
    } else {
      var first, tail := parts[0], parts[1..];
      assert c !in first;
      assert forall i :: 0 <= i < |tail| ==> c !in tail[i] by {
        forall i | 0 <= i < |tail| ensures c !in tail[i] {
          assert tail[i] == parts[i + 1];
        }
      }
      SplitCons(first, Join([c], tail), c);
      SplitJoin(tail, c);
      Seqs.HeadTail(parts);
    }
  }

  // ---------------------------------------------------------------- numbers

  predicate IsAsciiDigit(c: char) {
    '0' <= c <= '9'
  }

  function DigitChar(d: nat): (c: char)
    requires d < 10
    ensures IsAsciiDigit(c)
  {
    ('0' as int + d) as char
  }

  function NatToString(n: nat): (r: string)
    ensures r != []
    ensures forall i :: 0 <= i < |r| ==> IsAsciiDigit(r[i])
    decreases n
  {
    if n < 10 then [DigitChar(n)] else NatToString(n / 10) + [DigitChar(n % 10)]
  }

  /**
   * `int.ToString()`: optional '-' and decimal digits, as in any culture whose
   * negative sign is '-'.
   */
  function IntToString(n: int): (r: string)
    ensures r != []
    ensures forall i :: 0 <= i < |r| ==> IsAsciiDigit(r[i]) || r[i] == '-'
  {
    if n < 0 then "-" + NatToString(-n) else NatToString(n)
  }

  /** The value of a string of ASCII digits. */
  function DigitsValue(s: string): nat
    requires forall i :: 0 <= i < |s| ==> IsAsciiDigit(s[i])
    decreases |s|
  {
    if s == [] then 0
    else
      assert IsAsciiDigit(s[|s| - 1]);
      DigitsValue(s[..|s| - 1]) * 10 + (s[|s| - 1] as int - '0' as int)
  }

  /** Reading back the digits `NatToString` writes gives the number. */
  lemma {:induction false} NatToStringValue(n: nat)
    ensures DigitsValue(NatToString(n)) == n
    decreases n
  {
    if n >= 10 {
      var s := NatToString(n);
      assert s[..|s| - 1] == NatToString(n / 10);
      NatToStringValue(n / 10);
    }
  }
}
