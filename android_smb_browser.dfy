/**
 * `AndroidSmbBrowser`: rewrites the request path for the Java bridge,
 * looks up the password only for a non-blank secret id, decodes the
 * bridge's `D\tname` / `F\tname` lines and sorts directories first, then
 * names without regard to case, stably.
 */
module AndroidSmbBrowser {
  import opened Wrappers
  import opened Strings
  import opened SmbTypes
  import Seqs
  import StableSort
  import SmbjBridge

  // ---------------------------------------------------------------- the path handed to the bridge

  /** `request.Path.Replace('/', '\\')`, and `\` when that is blank. */
  function RewritePath(path: string): string {
    var p := Replace(path, '/', '\\');
    if IsBlank(p) then "\\" else p
  }

  /** Replacing `/` by `\` keeps a string blank or non-blank. */
  lemma ReplaceKeepsBlank(path: string)
    ensures IsBlank(Replace(path, '/', '\\')) <==> IsBlank(path)
  {
    var p := Replace(path, '/', '\\');
    forall i | 0 <= i < |path| ensures IsWhiteSpace(p[i]) <==> IsWhiteSpace(path[i]) {
      ReplaceAt(path, '/', '\\', i);
    }
  }

  /**
   * The rewritten path is never empty and holds no `/`; a blank path becomes
   * the share root `\`; any other path keeps its characters and has each
   * `/` turned into `\`.
   */
  lemma RewritePathFacts(path: string)
    ensures var r := RewritePath(path);
      r != [] && '/' !in r &&
      (IsBlank(path) ==> r == "\\") &&
      (!IsBlank(path) ==>
        |r| == |path| && (forall i :: 0 <= i < |path| ==> r[i] == if path[i] == '/' then '\\' else path[i]))
  {
    ReplaceKeepsBlank(path);
    ReplaceRemoves(path, '/', '\\');
    forall i | 0 <= i < |path| ensures Replace(path, '/', '\\')[i] == if path[i] == '/' then '\\' else path[i] {
      ReplaceAt(path, '/', '\\', i);
    }
  }

  /** Rewriting twice is rewriting once. */
  lemma RewritePathIdempotent(path: string)
    ensures RewritePath(RewritePath(path)) == RewritePath(path)
  {
    var r := RewritePath(path);
    RewritePathFacts(path);
    RewritePathFacts(r);
    ReplaceAbsent(r, '/', '\\');
    ReplaceKeepsBlank(path);
    if IsBlank(path) {
      assert !IsWhiteSpace(r[0]);
    }
  }

  // ---------------------------------------------------------------- the password

  /** The secret store's `TryGetAsync`, with the lookups it was asked for. */
  class SecretStore {
    var secrets: map<string, string>
    var lookups: seq<string>

    constructor(secrets: map<string, string>)
      ensures this.secrets == secrets && lookups == []
    {
      this.secrets := secrets;
      lookups := [];
    }

    method TryGet(id: string) returns (r: Option<string>)
      modifies this
      ensures r == (if id in secrets then Some(secrets[id]) else None)
      ensures secrets == old(secrets) && lookups == old(lookups) + [id]
    {
      lookups := lookups + [id];
      r := if id in secrets then Some(secrets[id]) else None;
    }
  }

  /** The password for a secret id: none for a null or blank id. */
  function PasswordFor(secretId: Option<string>, secrets: map<string, string>): (r: Option<string>)
    ensures r.Some? ==> secretId.Some? && !IsBlank(secretId.value) && secretId.value in secrets &&
                        r.value == secrets[secretId.value]
    ensures r.None? ==> IsNullOrBlank(secretId) || secretId.value !in secrets
  {
    if IsNullOrBlank(secretId) then None
    else if secretId.value in secrets then Some(secrets[secretId.value])
    else None
  }

  // ---------------------------------------------------------------- decoding

  /** One line of the bridge's answer: `Split('\t', 2)`, `"D"` compared ordinally. */
  function DecodeLine(line: string): BrowseEntry {
    match SplitFirst(line, '\t')
    case None => BrowseEntry(line, line == "D")
    case Some((kind, name)) => BrowseEntry(name, kind == "D")
  }

  /**
   * The name is everything after the first tab, tabs included, or the
   * whole line when there is none; the entry is a directory exactly when
   * the text before the first tab, or the whole tab-free line, is `D`.
   */
  lemma DecodeLineFacts(line: string)
    ensures var e := DecodeLine(line);
      ('\t' !in line ==> e.name == line && (e.isDirectory <==> line == "D")) &&
      ('\t' in line ==>
        var k := |line| - |e.name| - 1;
        0 <= k && line[k] == '\t' && '\t' !in line[..k] && e.name == line[k + 1..] &&
        (e.isDirectory <==> k == 1 && line[0] == 'D'))
  {
    match SplitFirst(line, '\t')
    case None =>
    case Some((kind, name)) =>
      var k := |kind|;
      assert line[..k] == kind && line[k] == '\t' && line[k + 1..] == name;
      if k == 1 && line[0] == 'D' {
        assert kind == "D";
      }
  }

  /** Decoding the bridge's encoding gives back the name and the directory flag. */
  lemma DecodeEncoded(info: SmbjBridge.DirInfo)
    ensures DecodeLine(SmbjBridge.EncodeEntry(info)) == BrowseEntry(info.name, info.isDirectory)
  {
    var line := SmbjBridge.EncodeEntry(info);
    var c := if info.isDirectory then 'D' else 'F';
    assert line == [c] + ['\t'] + info.name;
    IndexOfCharAfter([c], info.name, '\t');
  }

  function DecodeAll(lines: seq<string>): (r: seq<BrowseEntry>)
    ensures |r| == |lines|
    ensures forall i :: 0 <= i < |lines| ==> r[i] == DecodeLine(lines[i])
    decreases |lines|
  {
    if lines == [] then [] else [DecodeLine(lines[0])] + DecodeAll(lines[1..])
  }

  /** What the bridge's records become on the C# side. */
  function AsEntries(infos: seq<SmbjBridge.DirInfo>): (r: seq<BrowseEntry>)
    ensures |r| == |infos|
    ensures forall i :: 0 <= i < |infos| ==> r[i] == BrowseEntry(infos[i].name, infos[i].isDirectory)
    decreases |infos|
  {
    if infos == [] then [] else [BrowseEntry(infos[0].name, infos[0].isDirectory)] + AsEntries(infos[1..])
  }

  /** Decoding every encoded line gives back every record. */
  lemma DecodeAllEncoded(infos: seq<SmbjBridge.DirInfo>)
    ensures DecodeAll(SmbjBridge.EncodeAll(infos)) == AsEntries(infos)
  {
    forall i | 0 <= i < |infos| ensures DecodeAll(SmbjBridge.EncodeAll(infos))[i] == AsEntries(infos)[i] {
      DecodeEncoded(infos[i]);
    }
  }

  // ---------------------------------------------------------------- sorting

  /**
   * `OrderByDescending(e => e.IsDirectory).ThenBy(e => e.Name, OrdinalIgnoreCase)`
   * as one order: directories before files, then names compared upper-cased.
   */
  predicate EntryLe(a: BrowseEntry, b: BrowseEntry) {
    (a.isDirectory && !b.isDirectory) ||
    (a.isDirectory == b.isDirectory && StableSort.LexLe(ToUpper(a.name), ToUpper(b.name)))
  }

  lemma EntryLeTotalPreorder()
    ensures StableSort.TotalPreorder(EntryLe)
  {
    forall a: BrowseEntry, b: BrowseEntry ensures EntryLe(a, b) || EntryLe(b, a) {
      StableSort.LexLeTotal(ToUpper(a.name), ToUpper(b.name));
    }
    forall a: BrowseEntry, b: BrowseEntry, c: BrowseEntry | EntryLe(a, b) && EntryLe(b, c)
      ensures EntryLe(a, c)
    {
      if a.isDirectory == b.isDirectory && b.isDirectory == c.isDirectory {
        StableSort.LexLeTrans(ToUpper(a.name), ToUpper(b.name), ToUpper(c.name));
      }
    }
  }

  /** Entries the order cannot tell apart: the same kind and the same name up to case. */
  lemma TiedMeans(a: BrowseEntry, b: BrowseEntry)
    ensures StableSort.Tied(EntryLe, a, b) <==> a.isDirectory == b.isDirectory && ToUpper(a.name) == ToUpper(b.name)
  {
    if StableSort.Tied(EntryLe, a, b) {
      StableSort.LexLeAntisym(ToUpper(a.name), ToUpper(b.name));
    } else if a.isDirectory == b.isDirectory {
      StableSort.LexLeTotal(ToUpper(a.name), ToUpper(b.name));
    }
  }

  /** The decoded and sorted answer. */
  function Listing(lines: seq<string>): seq<BrowseEntry> {
    StableSort.Sort(DecodeAll(lines), EntryLe)
  }

  /**
   * The listing is a rearrangement of the decoded lines in which every
   * directory precedes every file and each group is ordered by name
   * without regard to case.
   */
  lemma ListingOrdered(lines: seq<string>)
    ensures var r := Listing(lines);
      multiset(r) == multiset(DecodeAll(lines)) && |r| == |lines| &&
      (forall i, j :: 0 <= i < j < |r| && r[j].isDirectory ==> r[i].isDirectory) &&
      (forall i, j :: 0 <= i < j < |r| && r[i].isDirectory == r[j].isDirectory ==>
        StableSort.LexLe(ToUpper(r[i].name), ToUpper(r[j].name)))
  {
    EntryLeTotalPreorder();
    StableSort.SortSorted(DecodeAll(lines), EntryLe);
  }

  /** Entries that tie keep the order the bridge sent them in. */
  lemma ListingStable(lines: seq<string>, k: BrowseEntry)
    ensures Seqs.Filter(Listing(lines), y => StableSort.Tied(EntryLe, y, k)) ==
            Seqs.Filter(DecodeAll(lines), y => StableSort.Tied(EntryLe, y, k))
  {
    EntryLeTotalPreorder();
    StableSort.SortStable(DecodeAll(lines), EntryLe, k);
  }

  /**
   * End to end with the bridge: the listing of a share is a rearrangement
   * of its records other than `.` and `..`, with names and kinds intact.
   */
  lemma BridgeListing(infos: seq<SmbjBridge.DirInfo>)
    ensures var r := Listing(SmbjBridge.EncodeAll(SmbjBridge.Listed(infos)));
      multiset(r) == multiset(AsEntries(SmbjBridge.Listed(infos))) &&
      forall e :: e in r ==> e.name != "." && e.name != ".."
  {
    var listed := SmbjBridge.Listed(infos);
    DecodeAllEncoded(listed);
    ListingOrdered(SmbjBridge.EncodeAll(listed));
    SmbjBridge.ListedMembers(infos);
    var r := Listing(SmbjBridge.EncodeAll(listed));
    forall e | e in r ensures e.name != "." && e.name != ".." {
      assert e in multiset(r);
      assert e in AsEntries(listed);
      var i :| 0 <= i < |listed| && AsEntries(listed)[i] == e;
      assert listed[i] in listed;
    }
  }

  // ---------------------------------------------------------------- the call

  /** The arguments `ListDirectory` is called with. */
  datatype BridgeCall = BridgeCall(host: string, share: string, path: string,
                                   domain: Option<string>, username: Option<string>, password: Option<string>)

  /**
   * `ListAsync(request)`: `reply` is what the bridge answers to the call
   * this method makes.
   */
  method ListAsync(req: BrowseRequest, store: SecretStore, reply: seq<string>)
    returns (call: BridgeCall, entries: seq<BrowseEntry>)
    modifies store
    ensures store.secrets == old(store.secrets)
    ensures store.lookups == old(store.lookups) + if IsNullOrBlank(req.secretId) then [] else [req.secretId.value]
    ensures call == BridgeCall(req.host, req.share, RewritePath(req.path), req.domain, req.username,
                               PasswordFor(req.secretId, old(store.secrets)))
    ensures entries == Listing(reply)
  {
    var password: Option<string> := None;
    if !IsNullOrBlank(req.secretId) {
      password := store.TryGet(req.secretId.value);
    }
    var path := Replace(req.path, '/', '\\');
    if IsBlank(path) {
      path := "\\";
    }
    call := BridgeCall(req.host, req.share, path, req.domain, req.username, password);
    entries := Listing(reply);
  }
}
