/**
 * `SmbjBridge` (Java): the listing loops that turn a share's directory
 * information into `D\tname` / `F\tname` lines, the paged variant with
 * Java's 32-bit `int` arithmetic, and the table of open file handles.
 * The SMB connection itself is left out: a listing is given as the
 * sequence of directory records the share returns, in its order.
 */
module SmbjBridge {
  import Seqs
  import opened Ints

  /** One `FileIdBothDirectoryInformation`: its file name and its directory attribute. */
  datatype DirInfo = DirInfo(name: string, isDirectory: bool)

  /** The current and parent directory entries, which are never emitted. */
  predicate IsDotEntry(name: string) {
    name == "." || name == ".."
  }

  predicate Shown(info: DirInfo) {
    !IsDotEntry(info.name)
  }

  /** The records a listing emits, in listing order. */
  function Listed(infos: seq<DirInfo>): seq<DirInfo> {
    Seqs.Filter(infos, Shown)
  }

  /** `(isDir ? "D" : "F") + "\t" + name`. */
  function EncodeEntry(info: DirInfo): (line: string)
    ensures |line| == |info.name| + 2 && line[1] == '\t' && line[2..] == info.name
    ensures line[0] == (if info.isDirectory then 'D' else 'F')
  {
    [if info.isDirectory then 'D' else 'F', '\t'] + info.name
  }

  function EncodeAll(infos: seq<DirInfo>): (lines: seq<string>)
    ensures |lines| == |infos|
    ensures forall i :: 0 <= i < |infos| ==> lines[i] == EncodeEntry(infos[i])
    decreases |infos|
  {
    if infos == [] then [] else [EncodeEntry(infos[0])] + EncodeAll(infos[1..])
  }

  lemma {:induction false} EncodeAllAppend(a: seq<DirInfo>, b: seq<DirInfo>)
    ensures EncodeAll(a + b) == EncodeAll(a) + EncodeAll(b)
  {
    assert |EncodeAll(a + b)| == |EncodeAll(a) + EncodeAll(b)|;
    forall i | 0 <= i < |a + b| ensures EncodeAll(a + b)[i] == (EncodeAll(a) + EncodeAll(b))[i] {
      if i < |a| {
        assert (a + b)[i] == a[i];
      } else {
        assert (a + b)[i] == b[i - |a|];
      }
    }
  }

  /** Extending the input by one record extends the listing by that record unless it is a dot entry. */
  lemma ListedSnoc(infos: seq<DirInfo>, info: DirInfo)
    ensures Listed(infos + [info]) == Listed(infos) + (if Shown(info) then [info] else [])
  {
    Seqs.FilterAppend(infos, [info], Shown);
    assert Seqs.Filter([info], Shown) == (if Shown(info) then [info] else []) by {
      assert [info][1..] == [];
    }
  }

  /** A listing never contains `.` or `..`, and keeps every other record. */
  lemma ListedMembers(infos: seq<DirInfo>)
    ensures forall x :: x in Listed(infos) <==> x in infos && !IsDotEntry(x.name)
  {
    Seqs.FilterMembers(infos, Shown);
  }

  /** The listing of a prefix is a prefix of the listing. */
  lemma ListedPrefix(infos: seq<DirInfo>, i: nat)
    requires i <= |infos|
    ensures |Listed(infos[..i])| <= |Listed(infos)|
    ensures Listed(infos[..i]) == Listed(infos)[..|Listed(infos[..i])|]
  {
    assert infos == infos[..i] + infos[i..];
    Seqs.FilterAppend(infos[..i], infos[i..], Shown);
  }

  /** `listDirectory`: every record that is not a dot entry, encoded, in listing order. */
  method ListDirectory(infos: seq<DirInfo>) returns (items: seq<string>)
    ensures items == EncodeAll(Listed(infos))
  {
    items := [];
    var i := 0;
    while i < |infos|
      invariant 0 <= i <= |infos|
      invariant items == EncodeAll(Listed(infos[..i]))
    {
      var info := infos[i];
      assert infos[..i + 1] == infos[..i] + [info];
      ListedSnoc(infos[..i], info);
      i := i + 1;
      if IsDotEntry(info.name) {
        continue;
      }
      EncodeAllAppend(Listed(infos[..i - 1]), [info]);
      items := items + [EncodeEntry(info)];
    }
    assert infos[..i] == infos;
  }

  // ---------------------------------------------------------------- pages

  /** The items at positions `o` up to, not including, `o + cap`; nothing when `cap <= 0`. */
  function Window<T>(s: seq<T>, o: nat, cap: int): (w: seq<T>)
    ensures |w| == if cap <= 0 || o >= |s| then 0 else if o + cap <= |s| then cap else |s| - o
    ensures forall i :: 0 <= i < |w| ==> w[i] == s[o + i]
  {
    if cap <= 0 || o >= |s| then [] else if o + cap <= |s| then s[o..o + cap] else s[o..]
  }

  /** A window that is already full in a prefix is the same in the whole sequence. */
  lemma WindowOfPrefix<T>(p: seq<T>, s: seq<T>, o: nat, cap: int)
    requires |p| <= |s| && p == s[..|p|]
    requires |Window(p, o, cap)| >= cap || |p| == |s|
    ensures Window(s, o, cap) == Window(p, o, cap)
  {
    if |p| == |s| {
      assert p == s;
    }
  }

  /** One more element extends a window that is not yet full. */
  lemma WindowSnoc<T>(p: seq<T>, x: T, o: nat, cap: int)
    requires o <= |p| && |Window(p, o, cap)| < cap
    ensures Window(p + [x], o, cap) == Window(p, o, cap) + [x]
  {
  }

  /** A window that starts beyond the sequence is empty. */
  lemma WindowBefore<T>(p: seq<T>, x: T, o: nat, cap: int)
    requires |p| < o
    ensures Window(p + [x], o, cap) == [] && Window(p, o, cap) == []
  {
  }

  /**
   * The loop of `listDirectoryPage` with `cap` as the bound it compares
   * `items.size()` with: records are counted after the dot entries are
   * dropped, the first `offset` are skipped, and collection stops once
   * `cap` items are held.
   */
  method CollectPage(infos: seq<DirInfo>, offset: nat, cap: int) returns (items: seq<string>)
    ensures items == EncodeAll(Window(Listed(infos), offset, cap))
  {
    items := [];
    var idx := 0;
    var i := 0;
    while i < |infos|
      invariant 0 <= i <= |infos|
      invariant idx == |Listed(infos[..i])|
      invariant items == EncodeAll(Window(Listed(infos[..i]), offset, cap))
    {
      var info := infos[i];
      ghost var before := Listed(infos[..i]);
      ListedStep(infos, i);
      if IsDotEntry(info.name) {
        i := i + 1;
        continue;
      }
      var seen := idx;
      idx := idx + 1;
      if seen < offset {
        WindowBefore(before, info, offset, cap);
        i := i + 1;
        continue;
      }
      if |items| >= cap {
        ListedPrefix(infos, i);
        WindowOfPrefix(before, Listed(infos), offset, cap);
        return;
      }
      AddStep(before, info, offset, cap);
      items := items + [EncodeEntry(info)];
      i := i + 1;
    }
    assert infos[..i] == infos;
  }

  lemma ListedStep(infos: seq<DirInfo>, i: nat)
    requires i < |infos|
    ensures Listed(infos[..i + 1]) == Listed(infos[..i]) + (if Shown(infos[i]) then [infos[i]] else [])
  {
    assert infos[..i + 1] == infos[..i] + [infos[i]];
    ListedSnoc(infos[..i], infos[i]);
  }

  /** Adding an item to a window that is not yet full. */
  lemma AddStep(p: seq<DirInfo>, x: DirInfo, o: nat, cap: int)
    requires o <= |p| && |Window(p, o, cap)| < cap
    ensures EncodeAll(Window(p + [x], o, cap)) == EncodeAll(Window(p, o, cap)) + [EncodeEntry(x)]
  {
    WindowSnoc(p, x, o, cap);
    EncodeAllAppend(Window(p, o, cap), [x]);
  }

  /** `Math.max(0, x)`. */
  function Clamp(x: Int32): nat {
    if x < 0 then 0 else x as int
  }

  /** The page `listDirectoryPage` returns as written: the bound `safeLimit + 1` is an `int` sum. */
  function PageAsWritten(infos: seq<DirInfo>, offset: Int32, limit: Int32): seq<string> {
    EncodeAll(Window(Listed(infos), Clamp(offset), Wrap32(Clamp(limit) + 1)))
  }

  /** `listDirectoryPage` as written, including the `int` overflow of its bound. */
  method ListDirectoryPageAsWritten(infos: seq<DirInfo>, offset: Int32, limit: Int32) returns (items: seq<string>)
    ensures items == PageAsWritten(infos, offset, limit)
  {
    var safeOffset := if offset < 0 then 0 else offset;
    var safeLimit := if limit < 0 then 0 else limit;
    assert safeOffset as int == Clamp(offset) && safeLimit as int == Clamp(limit);
    var bound := Wrap32(safeLimit as int + 1);
    items := CollectPage(infos, safeOffset as int, bound);
  }

  /**
   * With `limit = Integer.MAX_VALUE` the bound wraps to `Integer.MIN_VALUE`,
   * so the loop stops before the first item: a request for everything
   * returns an empty page even though items are left.
   */
  lemma MaxLimitEmptiesPage(infos: seq<DirInfo>, offset: Int32)
    requires Clamp(offset) < |Listed(infos)|
    ensures PageAsWritten(infos, offset, IntMax) == []
    ensures Page(infos, offset, IntMax) != []
  {
    assert Wrap32(Clamp(IntMax) + 1) == -0x8000_0000;
  }

  /** A concrete input for `MaxLimitEmptiesPage`: one file, offset 0. */
  lemma MaxLimitExample()
    ensures PageAsWritten([DirInfo("a.mp4", false)], 0, IntMax) == []
    ensures Page([DirInfo("a.mp4", false)], 0, IntMax) == ["F\ta.mp4"]
  {
    var infos := [DirInfo("a.mp4", false)];
    assert Listed(infos) == infos by {
      assert Shown(infos[0]);
      assert infos[1..] == [];
    }
    MaxLimitEmptiesPage(infos, 0);
    assert Window(infos, 0, Clamp(IntMax) + 1) == infos;
    assert EncodeAll(infos) == [EncodeEntry(infos[0])];
    assert EncodeEntry(infos[0]) == "F\ta.mp4";
  }

  /** The intended page: the items from the clamped offset, at most `limit + 1` of them. */
  function Page(infos: seq<DirInfo>, offset: Int32, limit: Int32): seq<string> {
    EncodeAll(Window(Listed(infos), Clamp(offset), Clamp(limit) + 1))
  }

  /** `listDirectoryPage` with the bound computed without overflow (`(long) safeLimit + 1`). */
  method ListDirectoryPage(infos: seq<DirInfo>, offset: Int32, limit: Int32) returns (items: seq<string>)
    ensures items == Page(infos, offset, limit)
    ensures |items| <= Clamp(limit) + 1
  {
    var safeOffset := if offset < 0 then 0 else offset;
    var safeLimit := if limit < 0 then 0 else limit;
    assert safeOffset as int == Clamp(offset) && safeLimit as int == Clamp(limit);
    items := CollectPage(infos, safeOffset as int, safeLimit as int + 1);
  }

  /** Below the maximum limit the two bounds agree, so the page is as intended. */
  lemma AsWrittenAgreesBelowMax(infos: seq<DirInfo>, offset: Int32, limit: Int32)
    requires limit < IntMax
    ensures PageAsWritten(infos, offset, limit) == Page(infos, offset, limit)
  {
    assert Wrap32(Clamp(limit) + 1) == Clamp(limit) + 1;
  }

  /**
   * The extra item: a page holds `limit + 1` items exactly when more than
   * `limit` items follow the offset, which is how the caller learns that
   * a next page exists.
   */
  lemma PageSignalsMore(infos: seq<DirInfo>, offset: Int32, limit: Int32)
    ensures |Page(infos, offset, limit)| == Clamp(limit) + 1 <==> |Listed(infos)| - Clamp(offset) > Clamp(limit)
  {
  }

  /** The items of a page, in order, are the listed records from the offset on. */
  lemma PageItems(infos: seq<DirInfo>, offset: Int32, limit: Int32)
    ensures forall i :: 0 <= i < |Page(infos, offset, limit)| ==>
      Page(infos, offset, limit)[i] == EncodeEntry(Listed(infos)[Clamp(offset) + i])
  {
  }

  /**
   * Paging without gaps or repeats: the window of `a` items at `o` followed
   * by the window of `b` items at `o + a` is the window of `a + b` items at `o`.
   */
  lemma WindowsConcat<T>(s: seq<T>, o: nat, a: nat, b: nat)
    ensures Window(s, o, a) + Window(s, o + a, b) == Window(s, o, a + b)
  {
    var l := Window(s, o, a) + Window(s, o + a, b);
    var r := Window(s, o, a + b);
    assert |l| == |r|;
    forall i | 0 <= i < |l| ensures l[i] == r[i] {
      if i < |Window(s, o, a)| {
      } else {
        assert l[i] == Window(s, o + a, b)[i - |Window(s, o, a)|];
      }
    }
  }

  // ---------------------------------------------------------------- open file handles

  /** A `Handle`: the file's size; the connection objects are left out. */
  datatype Handle = Handle(size: int)

  /** The static `NEXT_ID` counter and `HANDLES` table. */
  class HandleTable {
    var nextId: int
    var handles: map<int, Handle>
    /** Every id handed out so far. */
    ghost var issued: set<int>

    ghost predicate Valid()
      reads this
    {
      nextId >= 1 &&
      (forall id :: id in issued <==> 1 <= id < nextId) &&
      handles.Keys <= issued
    }

    /** `new AtomicLong(1)` and an empty map. */
    constructor()
      ensures Valid() && nextId == 1 && handles == map[] && issued == {}
    {
      nextId := 1;
      handles := map[];
      issued := {};
    }

    /**
     * The bookkeeping of a successful `openFile` of a file of `size` bytes:
     * the id is `NEXT_ID.getAndIncrement()`, larger than every id issued
     * before, so it is never reused.
     */
    method Open(size: int) returns (id: int)
      requires Valid()
      modifies this
      ensures Valid()
      ensures id == old(nextId) && id >= 1 && id !in old(issued)
      ensures forall k :: k in old(issued) ==> k < id
      ensures nextId == old(nextId) + 1 && issued == old(issued) + {id}
      ensures handles == old(handles)[id := Handle(size)]
    {
      id := nextId;
      nextId := nextId + 1;
      handles := handles[id := Handle(size)];
      issued := issued + {id};
    }

    /**
     * `read(handleId, offset, …)`: -1 for an unknown handle or an offset at
     * or past the end; otherwise what the file's own read returns, given as
     * `fileRead`.
     */
    method Read(handleId: int, offset: int, fileRead: int) returns (r: int)
      ensures handleId !in handles ==> r == -1
      ensures handleId in handles && offset >= handles[handleId].size ==> r == -1
      ensures handleId in handles && offset < handles[handleId].size ==> r == fileRead
    {
      if handleId !in handles {
        return -1;
      }
      var h := handles[handleId];
      if offset >= h.size {
        return -1;
      }
      return fileRead;
    }

    /** `length(handleId)`: the size, or -1 for an unknown handle. */
    function Length(handleId: int): (r: int)
      reads this
      ensures handleId in handles ==> r == handles[handleId].size
      ensures handleId !in handles ==> r == -1
    {
      if handleId in handles then handles[handleId].size else -1
    }

    /** `close(handleId)`: forgets the handle; an unknown handle is a no-op. */
    method Close(handleId: int)
      requires Valid()
      modifies this
      ensures Valid()
      ensures handles == old(handles) - {handleId} && handleId !in handles
      ensures nextId == old(nextId) && issued == old(issued)
    {
      handles := handles - {handleId};
    }
  }

  /** After `close`, `length` and `read` treat the handle as unknown. */
  method CloseThenUse(t: HandleTable, id: int, offset: int, fileRead: int) returns (len: int, r: int)
    requires t.Valid()
    modifies t
    ensures len == -1 && r == -1
  {
    t.Close(id);
    len := t.Length(id);
    r := t.Read(id, offset, fileRead);
  }
}
