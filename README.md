# Audixa core, modelled in Dafny

Audixa is a language-learning media player for desktop and Android. This project models and proves properties of its core logic:

- the parsing of SMB share roots;
- the time-to-live and least-recently-used cache of directory listings, and the browser that consults it;
- the text format in which the Java SMB bridge hands directory entries to C#, and how the Android browser decodes and sorts them;
- the SRT and WebVTT subtitle parser;
- the subtitle rows, masks and sentence saving of the player view model;
- the playback state machine, with its autosave and one-shot resume seek;
- the in-memory library and learning stores;
- the version and IV framing of protected secrets;
- the HTTP `Range` handling of the desktop player's local file proxy.

Each core source file is one Dafny module:

| module | file | models |
|---|---|---|
| `SmbPath` | `smb_path.dfy` | `TryParseRoot`, `NormalizeRelativePath` and `BuildStableLocator`, over a small reader for absolute URIs |
| `SmbBrowseCache` | `smb_browse_cache.dfy` | the cache as a class with an entry map and a recency list; each method is proved against a function on cache states |
| `CachedSmbBrowser` | `cached_smb_browser.dfy` | `BuildKey`, and `ListAsync` over an inner browser that counts its calls |
| `AndroidSmbBrowser` | `android_smb_browser.dfy` | the path rewrite, the secret lookup guard, the `D\t`/`F\t` decoding and the directories-first sort |
| `SmbjBridge` | `smbj_bridge.dfy` | entry filtering, encoding and paging, and the handle table with `read`, `length` and `close` |
| `SubtitleTime`, `SubtitleService`, `SubtitleRoundTrip` | `subtitle_time.dfy`, `subtitle_service.dfy` | timestamps; the SRT and VTT line scanners; parsing what a writer of cues produces |
| `Player` | `player_view_model.dfy` | the view model's subtitle rows, active cue, masks, offsets and saved sentences |
| `Playback` | `playback_service.dfy` | the playback service's state, with adapter and store calls logged as events |
| `LibraryStore`, `LearningStore` | `library_store.dfy`, `learning_store.dfy` | the in-memory stores |
| `SecretProtector` | `secret_protector.dfy` | the payload framing, with the cipher left abstract |
| `LocalHttpProxy` | `local_http_proxy.dfy` | `ParseRange`, the status decision of `Handle` and `CopyFixedLength` |

Helper modules stand for the library calls the source relies on:

- `Strings`: `Trim`, `Replace`, `Split`, `Join` and invariant-culture case.
- `Seqs` and `StableSort`: LINQ's `Where`, `Take` and the stable `OrderBy`.
- `Ints`: 32-bit `int` and 64-bit `long` wrap-around.
- `Clock`: an injected time provider.
- `Wrappers`: `Option` and `Result`.

The scenarios of the source's unit tests are proved as lemmas in `subtitle_examples.dfy`, `player_examples.dfy` and `playback_examples.dfy`, and beside the general lemmas in the other files.

Times are integer milliseconds throughout. Strings are sequences of characters.

## Model

| member | source | states |
|---|---|---|
| SmbPath.TryCreateUri | src/AgiBuild.Audixa/Sources/SmbPath.cs:31 | the reduced absolute-URI reader accepts only input with a scheme before the first `:`; the scheme it reports is the one the input starts with, or `file` for a one-letter drive scheme; the path is taken as written, without escaping or dot-segment removal |
| SmbPath.HostOf | src/AgiBuild.Audixa/Sources/SmbPath.cs:34 | the host of an authority contains neither `@` nor `:` |
| SmbPath.PathOf | src/AgiBuild.Audixa/Sources/SmbPath.cs:35 | the absolute path stops before the query or fragment |
| SmbPath.ReadAuthority | src/AgiBuild.Audixa/Sources/SmbPath.cs:31-34 | the path after an authority is never empty: an empty one reads as `/` |
| SmbPath.ReadHierPart | src/AgiBuild.Audixa/Sources/SmbPath.cs:31-34 | without `//` there is no host |
| SmbPath.ParseUnc | src/AgiBuild.Audixa/Sources/SmbPath.cs:18-28 | the UNC branch: on success host and share are not blank; host and share never contain `\` |
| SmbPath.ParseSmbUri | src/AgiBuild.Audixa/Sources/SmbPath.cs:30-41 | the URI branch: on success host and share are not blank, and the share contains no `/` |
| SmbPath.TryParseRoot | src/AgiBuild.Audixa/Sources/SmbPath.cs:7-44 | null or blank input is rejected with both outs empty; a trimmed input that starts with `\\` is decided by the UNC branch alone; any other input goes to the URI branch; a success always has non-blank host and share |
| SmbPath.UncRootParses | src/AgiBuild.Audixa/Sources/SmbPath.cs:15-28 | every `\\host\share`, followed by nothing or a `\`-led tail, parses to exactly (host, share) |
| SmbPath.UncBranch | src/AgiBuild.Audixa/Sources/SmbPath.cs:20-27 | the UNC branch of `\\host\share tail` gives (host, share) |
| SmbPath.UncPieces | src/AgiBuild.Audixa/Sources/SmbPath.cs:21 | the non-empty `\` pieces of `host\share tail` start with host and share |
| SmbPath.SmbUriRootParses | src/AgiBuild.Audixa/Sources/SmbPath.cs:30-41 | every `scheme://host/share` with a plain host and share, `smb` in any case, followed by nothing or a `/`, `?` or `#` tail, parses to (lower-cased host, share) |
| SmbPath.SmbUriBranch | src/AgiBuild.Audixa/Sources/SmbPath.cs:31-40 | the URI branch of `scheme://host/share tail`, for a plain host and share, gives (lower-cased host, share) |
| SmbPath.SmbUriReads | src/AgiBuild.Audixa/Sources/SmbPath.cs:31 | the URI reader on `scheme://host/share tail`, for a plain host and share, reports that scheme, the lower-cased host and a path led by the share |
| SmbPath.PlainComponents | src/AgiBuild.Audixa/Sources/SmbPath.cs:31-40 | a plain host and a plain share contain none of the characters that end a URI host or path segment, and start and end with a non-blank character |
| SmbPath.ShareSegment | src/AgiBuild.Audixa/Sources/SmbPath.cs:35-39 | the first non-empty `/` segment of `/share tail` is the share |
| SmbPath.UncHostOnlyRejected | src/AgiBuild.Audixa/Sources/SmbPath.cs:21-23 | `\\host` alone names no share and is rejected |
| SmbPath.NoSchemeRejected | src/AgiBuild.Audixa/Sources/SmbPath.cs:31-43 | a non-UNC input with no `:` is rejected |
| SmbPath.OtherSchemeRejected | src/AgiBuild.Audixa/Sources/SmbPath.cs:31-32 | the URI branch rejects every scheme other than `smb` in any case |
| SmbPath.OtherSchemeRootRejected | src/AgiBuild.Audixa/Sources/SmbPath.cs:31-43 | `TryParseRoot` rejects `scheme:after` for any scheme other than `smb` |
| SmbPath.UncExamples | src/AgiBuild.Audixa.Tests/SmbPathTests.cs:8-17 | `\\server\share`, `\\server\share\` and `\\server\share\folder` parse to (server, share) |
| SmbPath.SmbUriExample | src/AgiBuild.Audixa.Tests/SmbPathTests.cs:19-28 | `smb://server/share` parses to (server, share) |
| SmbPath.SmbUriSlashExample | src/AgiBuild.Audixa.Tests/SmbPathTests.cs:19-28 | `smb://server/share/` parses to (server, share) |
| SmbPath.SmbUriFolderExample | src/AgiBuild.Audixa.Tests/SmbPathTests.cs:19-28 | `smb://server/share/folder` parses to (server, share) |
| SmbPath.BlankRejectedExample | src/AgiBuild.Audixa.Tests/SmbPathTests.cs:30-39 | `""` and `"  "` are rejected |
| SmbPath.NoSchemeRejectedExample | src/AgiBuild.Audixa.Tests/SmbPathTests.cs:30-39 | `server/share` is rejected |
| SmbPath.HttpRejectedExample | src/AgiBuild.Audixa.Tests/SmbPathTests.cs:30-39 | `http://server/share` is rejected |
| SmbPath.UncHostOnlyRejectedExample | src/AgiBuild.Audixa.Tests/SmbPathTests.cs:30-39 | `\\server` is rejected |
| SmbPath.TrimBackslashes | src/AgiBuild.Audixa/Sources/SmbPath.cs:49 | `Trim('\')` leaves no `\` at either end and adds no `/` |
| SmbPath.NormalizeRelativePath | src/AgiBuild.Audixa/Sources/SmbPath.cs:46-51 | the result contains no `/` and neither starts nor ends with `\` |
| SmbPath.NormalizeIdempotent | src/AgiBuild.Audixa/Sources/SmbPath.cs:46-51 | a second normalisation changes nothing when the first result has non-whitespace ends |
| SmbPath.NormalizeNotIdempotent | src/AgiBuild.Audixa/Sources/SmbPath.cs:48-50 | without that condition it can: `\ a` gives ` a`, which gives `a` |
| SmbPath.NormalizeBackslashSpace | src/AgiBuild.Audixa/Sources/SmbPath.cs:48-50 | `\ a` normalises to ` a` |
| SmbPath.NormalizeSpace | src/AgiBuild.Audixa/Sources/SmbPath.cs:48 | ` a` normalises to `a` |
| SmbPath.NormalizeAllSeparators | src/AgiBuild.Audixa/Sources/SmbPath.cs:48-49 | a path made only of `/` and `\` normalises to `""` |
| SmbPath.NormalizeStrips | src/AgiBuild.Audixa/Sources/SmbPath.cs:48-49 | leading and trailing separators of either kind are dropped and the inner `/` become `\` |
| SmbPath.NormalizeUntrimmed | src/AgiBuild.Audixa/Sources/SmbPath.cs:48-49 | without surrounding whitespace, normalising is replacing and then trimming backslashes |
| SmbPath.ReplaceThenTrim | src/AgiBuild.Audixa/Sources/SmbPath.cs:48-49 | after the replacement the outer separators are backslashes that the trim removes |
| SmbPath.NormalizeClean | src/AgiBuild.Audixa/Sources/SmbPath.cs:48 | a path without separators or whitespace at its ends only has its `/` turned into `\` |
| SmbPath.NormalizeSeparatorExamples | src/AgiBuild.Audixa.Tests/SmbPathTests.cs:41-52 | `""`, `\` and `\\` normalise to `""` |
| SmbPath.NormalizeFolder | src/AgiBuild.Audixa.Tests/SmbPathTests.cs:41-52 | `folder` stays `folder` |
| SmbPath.NormalizeFolderBackslash | src/AgiBuild.Audixa.Tests/SmbPathTests.cs:41-52 | `folder\` becomes `folder` |
| SmbPath.NormalizeSlashedSubfolder | src/AgiBuild.Audixa.Tests/SmbPathTests.cs:41-52 | `/folder/sub/` becomes `folder\sub` |
| SmbPath.NormalizeSubfolder | src/AgiBuild.Audixa.Tests/SmbPathTests.cs:41-52 | `folder/sub` becomes `folder\sub` |
| SmbPath.BuildStableLocator | src/AgiBuild.Audixa/Sources/SmbPath.cs:53-58 | the locator is `smb://host/share`, then `/` and the normalised path with `/` separators when that path is not empty; nothing after the share holds a `\` |
| SmbPath.LocatorOfTwoNames | src/AgiBuild.Audixa/Sources/SmbPath.cs:53-58 | a relative path `a\b` of two plain names gives `smb://host/share/a/b` |
| SmbPath.LocatorExample | src/AgiBuild.Audixa.Tests/SmbPathTests.cs:54-59 | `("server", "share", "folder\file.mp4")` gives `smb://server/share/folder/file.mp4` |
| SmbPath.LocatorRoundTrip | src/AgiBuild.Audixa/Sources/SmbPath.cs:30-58 | a locator built from a plain host (a letter, then letters, digits, `-`, `.`) and a plain share (unreserved characters, not `.` or `..`) parses back to (lower-cased host, share) for any relative path without `.` or `..` segments; the model reads such segments as written where `System.Uri` would fold them |
| SmbBrowseCache.Get | src/AgiBuild.Audixa/Sources/Impl/SmbBrowseCache.cs:30-55 | `TryGet` on cache contents: it hits exactly when the key is present and its age is at most the time to live; a hit returns the stored page, keeps every entry and moves the key to the front of the recency list; a miss returns the empty page, removes only that key from the entries (an expired entry is dropped, an absent key changes nothing) and takes it out of the recency list, keeping the others in order |
| SmbBrowseCache.GetWf | src/AgiBuild.Audixa/Sources/Impl/SmbBrowseCache.cs:30-55 | a lookup keeps the dictionary and the list in agreement within the capacity, and a hit puts the key at the front of the list |
| SmbBrowseCache.AgreesCard | src/AgiBuild.Audixa/Sources/Impl/SmbBrowseCache.cs:14-15 | when the dictionary's keys are the list's elements, each listed once, the two have the same size |
| SmbBrowseCache.StagedFacts | src/AgiBuild.Audixa/Sources/Impl/SmbBrowseCache.cs:61-68 | before eviction, `Set` lists the key first and then the other keys in their old order, stores (now, page) under it and keeps every other entry |
| SmbBrowseCache.EvictKeepsPrefix | src/AgiBuild.Audixa/Sources/Impl/SmbBrowseCache.cs:70-76 | eviction keeps the longest prefix of the recency list that fits the capacity, so it removes the least recently used keys, and leaves the kept entries unchanged |
| SmbBrowseCache.EvictFront | src/AgiBuild.Audixa/Sources/Impl/SmbBrowseCache.cs:67-76 | eviction after putting a key in front keeps that key and the first `capacity` keys |
| SmbBrowseCache.PutFacts | src/AgiBuild.Audixa/Sources/Impl/SmbBrowseCache.cs:57-78 | `Set` keeps the invariant and the capacity bound; the key holds (now, page) at the front; the previous keys follow in their old order, cut to the capacity; other entries are unchanged |
| SmbBrowseCache.Put | src/AgiBuild.Audixa/Sources/Impl/SmbBrowseCache.cs:57-78 | `Set` on cache contents; PutFacts, PutThenGet and PutEvictsLeastRecent state what it keeps and evicts |
| SmbBrowseCache.PutThenGet | src/AgiBuild.Audixa/Sources/Impl/SmbBrowseCache.cs:40-68 | a lookup at the instant of `Set` hits and returns the page just stored |
| SmbBrowseCache.TtlBoundary | src/AgiBuild.Audixa/Sources/Impl/SmbBrowseCache.cs:41 | an entry whose age equals the time to live still hits; one millisecond later it misses |
| SmbBrowseCache.PutExistingKeepsCount | src/AgiBuild.Audixa/Sources/Impl/SmbBrowseCache.cs:61-68 | replacing the entry of a present key leaves the number of entries unchanged |
| SmbBrowseCache.PutEvictsLeastRecent | src/AgiBuild.Audixa/Sources/Impl/SmbBrowseCache.cs:67-76 | a full cache that receives a new key evicts exactly its least recently used key |
| SmbBrowseCache.BrowseCache.constructor | src/AgiBuild.Audixa/Sources/Impl/SmbBrowseCache.cs:20-28 | for options the source accepts, the cache starts empty and valid |
| SmbBrowseCache.BrowseCache.Create | src/AgiBuild.Audixa/Sources/Impl/SmbBrowseCache.cs:20-28 | construction fails exactly when the capacity is not positive or the time to live is negative, with the source's message for the first failing check; otherwise the cache is empty |
| SmbBrowseCache.BrowseCache.RemoveNoLock | src/AgiBuild.Audixa/Sources/Impl/SmbBrowseCache.cs:80-84 | the key leaves the dictionary and its node leaves the list |
| SmbBrowseCache.BrowseCache.TryGet | src/AgiBuild.Audixa/Sources/Impl/SmbBrowseCache.cs:30-55 | the method's result and new contents are those of `Get` on the old contents at the clock's time; the invariant holds |
| SmbBrowseCache.BrowseCache.Set | src/AgiBuild.Audixa/Sources/Impl/SmbBrowseCache.cs:57-78 | the new contents are those of `Put` on the old contents, including the eviction loop; the invariant holds |
| Clock.ManualClock.constructor | src/AgiBuild.Audixa.Tests/TestSupport/ManualTimeProvider.cs:9-12 | the clock starts at the given time |
| Clock.ManualClock.SetUtcNow | src/AgiBuild.Audixa.Tests/TestSupport/ManualTimeProvider.cs:14 | the clock reads exactly the time it was set to |
| CachedSmbBrowser.KeyParts | src/AgiBuild.Audixa/Sources/Impl/CachedSmbBrowser.cs:35-43 | the key has eight fields in the source's order |
| CachedSmbBrowser.KeyTail | src/AgiBuild.Audixa/Sources/Impl/CachedSmbBrowser.cs:38-43 | the six fields after host and share |
| CachedSmbBrowser.KeySplits | src/AgiBuild.Audixa/Sources/Impl/CachedSmbBrowser.cs:31-44 | when no field contains `'\|'`, splitting the key at `'\|'` gives back the eight fields: trimmed and lower-cased host, share, path, user and domain; the page size; the trimmed token and secret id, case kept |
| CachedSmbBrowser.KeyDeterminesFields | src/AgiBuild.Audixa/Sources/Impl/CachedSmbBrowser.cs:31-44 | for such requests, two keys are equal exactly when their eight fields are |
| CachedSmbBrowser.BuildKey | src/AgiBuild.Audixa/Sources/Impl/CachedSmbBrowser.cs:31-44 | the key joins the eight normalised fields with `|`; KeySplits gives the fields back and KeyDeterminesFields shows equal keys mean equal fields |
| CachedSmbBrowser.KeyCollides | src/AgiBuild.Audixa/Sources/Impl/CachedSmbBrowser.cs:35-37 | moving a `'\|'`-joined piece from the host into the share leaves the key unchanged |
| CachedSmbBrowser.KeyNotInjective | src/AgiBuild.Audixa/Sources/Impl/CachedSmbBrowser.cs:35-37 | two different requests, with hosts `a\|b` and `a` and shares `c` and `b\|c`, share a key |
| CachedSmbBrowser.KeyIgnoresForce | src/AgiBuild.Audixa/Sources/Impl/CachedSmbBrowser.cs:35-43 | `ForceRefresh` is not part of the key |
| CachedSmbBrowser.LooseIgnoresCaseAndPadding | src/AgiBuild.Audixa/Sources/Impl/CachedSmbBrowser.cs:36 | a field compared without case and padding reads the same for any letter case and any surrounding whitespace |
| CachedSmbBrowser.KeyIgnoresHostCase | src/AgiBuild.Audixa/Sources/Impl/CachedSmbBrowser.cs:36 | the host's letter case and surrounding whitespace do not change the key |
| CachedSmbBrowser.Serve | src/AgiBuild.Audixa/Sources/Impl/CachedSmbBrowser.cs:19-29 | `ListAsync` on cache contents: the inner browser is called exactly when the request is forced, the key is absent or its entry is older than the time to live; a call returns the inner reply; otherwise the cached page is returned and the cache is what the lookup left; a failed forced call leaves the cache unchanged; a failed unforced call leaves it as the lookup left it, with an expired entry removed; a successful call stores the page into that same cache; a failure never adds or changes an entry |
| CachedSmbBrowser.ServeWf | src/AgiBuild.Audixa/Sources/Impl/CachedSmbBrowser.cs:19-29 | serving a request keeps the cache invariant |
| CachedSmbBrowser.ServeStores | src/AgiBuild.Audixa/Sources/Impl/CachedSmbBrowser.cs:26-27 | after a successful inner call, forced or not, the fresh page is stored under the request's key at the current time |
| CachedSmbBrowser.ServeStoresFresh | src/AgiBuild.Audixa/Sources/Impl/CachedSmbBrowser.cs:23-28 | a following non-forced request with the same key at the same time is answered from the cache with that page and no inner call |
| CachedSmbBrowser.ServeRefetchesAfterTtl | src/AgiBuild.Audixa/Sources/Impl/CachedSmbBrowser.cs:23-26 | once the time to live has passed, the inner browser is called again |
| CachedSmbBrowser.InnerBrowser.constructor | src/AgiBuild.Audixa.Tests/CachedSmbBrowserTests.cs:119-134 | the counting browser starts with no calls |
| CachedSmbBrowser.InnerBrowser.ListAsync | src/AgiBuild.Audixa.Tests/CachedSmbBrowserTests.cs:119-134 | each call counts once and returns the configured reply |
| CachedSmbBrowser.InnerBrowser.SetReply | src/AgiBuild.Audixa.Tests/CachedSmbBrowserTests.cs:119-134 | changing the reply does not count as a call |
| CachedSmbBrowser.CachingBrowser.constructor | src/AgiBuild.Audixa/Sources/Impl/CachedSmbBrowser.cs:13-17 | the decorator holds the given inner browser and cache |
| CachedSmbBrowser.CachingBrowser.ListAsync | src/AgiBuild.Audixa/Sources/Impl/CachedSmbBrowser.cs:19-29 | the reply, the new cache contents and the inner browser's call count are those `Serve` gives on the old contents; the cache stays valid |
| CachedSmbBrowser.EmptyWf | src/AgiBuild.Audixa/Sources/Impl/CachedSmbBrowser.cs:13-17 | the empty cache satisfies the invariant |
| CachedSmbBrowser.ForceRefreshOutcomes | src/AgiBuild.Audixa.Tests/CachedSmbBrowserTests.cs:54-96 | a first call stores page `a`; a forced call, with the inner browser now answering `b`, calls it and returns `b`; a third ordinary call returns `b` without a call |
| CachedSmbBrowser.TtlExpiryOutcomes | src/AgiBuild.Audixa.Tests/CachedSmbBrowserTests.cs:98-117 | with a five-second time to live, a second call six seconds after the first calls the inner browser again |
| AndroidSmbBrowser.ReplaceKeepsBlank | src/AgiBuild.Audixa.Android/Platform/Smb/AndroidSmbBrowser.cs:35-36 | turning `/` into `\` keeps a path blank exactly when it was |
| AndroidSmbBrowser.RewritePathFacts | src/AgiBuild.Audixa.Android/Platform/Smb/AndroidSmbBrowser.cs:35-37 | the rewritten path is never empty and has no `/`; a blank path becomes `\`; any other path keeps its length with each `/` turned into `\` |
| AndroidSmbBrowser.RewritePathIdempotent | src/AgiBuild.Audixa.Android/Platform/Smb/AndroidSmbBrowser.cs:35-37 | rewriting a rewritten path changes nothing |
| AndroidSmbBrowser.SecretStore.constructor | src/AgiBuild.Audixa.Android/Platform/Smb/AndroidSmbBrowser.cs:17-20 | the secret store starts with the given secrets and no lookups |
| AndroidSmbBrowser.SecretStore.TryGet | src/AgiBuild.Audixa.Android/Platform/Smb/AndroidSmbBrowser.cs:31 | a lookup returns the stored secret or none, records the id, and changes no secret |
| AndroidSmbBrowser.PasswordFor | src/AgiBuild.Audixa.Android/Platform/Smb/AndroidSmbBrowser.cs:29-31 | a password is passed only for a non-blank secret id that the store holds, and it is that secret; otherwise none |
| AndroidSmbBrowser.DecodeLineFacts | src/AgiBuild.Audixa.Android/Platform/Smb/AndroidSmbBrowser.cs:50-54 | a line without a tab is a name of its own and a directory only if it is `D`; otherwise the name is everything after the first tab, and the entry is a directory exactly when the text before that tab is `D` |
| AndroidSmbBrowser.DecodeEncoded | src/AgiBuild.Audixa.Android/Platform/Smb/AndroidSmbBrowser.cs:50-54 | decoding the bridge's `D\t`name or `F\t`name gives back the name and its kind (bridge encoding at src/AgiBuild.Audixa.Android/Java/com/agibuild/audixa/smb/SmbjBridge.java:128) |
| AndroidSmbBrowser.DecodeAll | src/AgiBuild.Audixa.Android/Platform/Smb/AndroidSmbBrowser.cs:47-55 | the lines are decoded one by one, in order |
| AndroidSmbBrowser.AsEntries | src/AgiBuild.Audixa.Android/Java/com/agibuild/audixa/smb/SmbjBridge.java:121-129 | the bridge's entries as browse entries, one for one |
| AndroidSmbBrowser.DecodeAllEncoded | src/AgiBuild.Audixa.Android/Platform/Smb/AndroidSmbBrowser.cs:47-55 | decoding every encoded entry gives the entries back, in order |
| AndroidSmbBrowser.EntryLeTotalPreorder | src/AgiBuild.Audixa.Android/Platform/Smb/AndroidSmbBrowser.cs:56-57 | directories first and then names ignoring case is a total preorder |
| AndroidSmbBrowser.TiedMeans | src/AgiBuild.Audixa.Android/Platform/Smb/AndroidSmbBrowser.cs:56-57 | two entries tie exactly when they have the same kind and the same name up to case |
| AndroidSmbBrowser.ListingOrdered | src/AgiBuild.Audixa.Android/Platform/Smb/AndroidSmbBrowser.cs:47-58 | the listing is a permutation of the decoded lines; every directory precedes every file; within each group, names are ordered ignoring case |
| AndroidSmbBrowser.ListingStable | src/AgiBuild.Audixa.Android/Platform/Smb/AndroidSmbBrowser.cs:56-57 | entries that tie keep the bridge's order |
| AndroidSmbBrowser.BridgeListing | src/AgiBuild.Audixa.Android/Platform/Smb/AndroidSmbBrowser.cs:39-58 | the listing built from the bridge's output is a permutation of the listed entries and holds no `.` or `..` |
| AndroidSmbBrowser.ListAsync | src/AgiBuild.Audixa.Android/Platform/Smb/AndroidSmbBrowser.cs:22-62 | the secret is looked up only for a non-blank id; the bridge is called with host, share, the rewritten path, domain, user and that password; the result is the decoded, sorted listing |
| StableSort.Sort | src/AgiBuild.Audixa.Android/Platform/Smb/AndroidSmbBrowser.cs:56-57 | LINQ's ordering, as an insertion sort: the result is a permutation of the input |
| StableSort.Insert | src/AgiBuild.Audixa.Android/Platform/Smb/AndroidSmbBrowser.cs:56-57 | inserting adds exactly one element |
| StableSort.SortSorted | src/AgiBuild.Audixa.Android/Platform/Smb/AndroidSmbBrowser.cs:56-57 | for a total preorder the result is sorted |
| StableSort.SortStable | src/AgiBuild.Audixa.Android/Platform/Smb/AndroidSmbBrowser.cs:56-57 | elements that tie keep their input order |
| StableSort.InsertSorted | src/AgiBuild.Audixa.Android/Platform/Smb/AndroidSmbBrowser.cs:56-57 | inserting into a sorted sequence keeps it sorted |
| StableSort.InsertStable | src/AgiBuild.Audixa.Android/Platform/Smb/AndroidSmbBrowser.cs:56-57 | inserting puts the new element after the elements it ties with |
| StableSort.InsertLowerBound | src/AgiBuild.Audixa.Android/Platform/Smb/AndroidSmbBrowser.cs:56-57 | a lower bound of the element and the sequence bounds the result |
| StableSort.LexLeTotal | src/AgiBuild.Audixa.Android/Platform/Smb/AndroidSmbBrowser.cs:57 | ordinal string comparison is total |
| StableSort.LexLeTrans | src/AgiBuild.Audixa.Android/Platform/Smb/AndroidSmbBrowser.cs:57 | ordinal string comparison is transitive |
| StableSort.LexLeAntisym | src/AgiBuild.Audixa.Android/Platform/Smb/AndroidSmbBrowser.cs:57 | ordinal string comparison is antisymmetric |
| SmbjBridge.EncodeEntry | src/AgiBuild.Audixa.Android/Java/com/agibuild/audixa/smb/SmbjBridge.java:127-128 | the line is `D` or `F` by the entry's kind, a tab and the name |
| SmbjBridge.EncodeAll | src/AgiBuild.Audixa.Android/Java/com/agibuild/audixa/smb/SmbjBridge.java:121-129 | each listed entry is encoded, in listing order |
| SmbjBridge.EncodeAllAppend | src/AgiBuild.Audixa.Android/Java/com/agibuild/audixa/smb/SmbjBridge.java:121-129 | encoding distributes over concatenation |
| SmbjBridge.ListedSnoc | src/AgiBuild.Audixa.Android/Java/com/agibuild/audixa/smb/SmbjBridge.java:121-126 | the filter of `.` and `..` works entry by entry |
| SmbjBridge.ListedMembers | src/AgiBuild.Audixa.Android/Java/com/agibuild/audixa/smb/SmbjBridge.java:124-126 | the listed entries are exactly the input's entries that are not `.` or `..` |
| SmbjBridge.ListedPrefix | src/AgiBuild.Audixa.Android/Java/com/agibuild/audixa/smb/SmbjBridge.java:121-126 | filtering a prefix gives a prefix of the filtered listing |
| SmbjBridge.ListDirectory | src/AgiBuild.Audixa.Android/Java/com/agibuild/audixa/smb/SmbjBridge.java:120-130 | `listDirectory` returns the encoding of the listed entries, in order |
| SmbjBridge.Window | src/AgiBuild.Audixa.Android/Java/com/agibuild/audixa/smb/SmbjBridge.java:168-184 | the window at offset `o` of at most `cap` elements: its length and that element `i` is element `o + i` |
| SmbjBridge.WindowOfPrefix | src/AgiBuild.Audixa.Android/Java/com/agibuild/audixa/smb/SmbjBridge.java:172-184 | a prefix that already fills the window, or is the whole listing, has the same window |
| SmbjBridge.WindowSnoc | src/AgiBuild.Audixa.Android/Java/com/agibuild/audixa/smb/SmbjBridge.java:182-187 | a window that is not yet full grows by the next element |
| SmbjBridge.WindowBefore | src/AgiBuild.Audixa.Android/Java/com/agibuild/audixa/smb/SmbjBridge.java:178-180 | elements before the offset do not enter the window |
| SmbjBridge.CollectPage | src/AgiBuild.Audixa.Android/Java/com/agibuild/audixa/smb/SmbjBridge.java:169-188 | the paging loop, for any bound, returns the encoded window of the listed entries at the offset |
| SmbjBridge.ListedStep | src/AgiBuild.Audixa.Android/Java/com/agibuild/audixa/smb/SmbjBridge.java:172-176 | filtering one more entry |
| SmbjBridge.AddStep | src/AgiBuild.Audixa.Android/Java/com/agibuild/audixa/smb/SmbjBridge.java:182-187 | adding one more item to a window that is not yet full |
| SmbjBridge.ListDirectoryPageAsWritten | src/AgiBuild.Audixa.Android/Java/com/agibuild/audixa/smb/SmbjBridge.java:165-188 | `listDirectoryPage` as written: the bound `safeLimit + 1` is a 32-bit sum and wraps |
| SmbjBridge.MaxLimitEmptiesPage | src/AgiBuild.Audixa.Android/Java/com/agibuild/audixa/smb/SmbjBridge.java:166-182 | with `limit = Integer.MAX_VALUE` the page is empty although items remain after the offset, while the intended page is not |
| SmbjBridge.MaxLimitExample | src/AgiBuild.Audixa.Android/Java/com/agibuild/audixa/smb/SmbjBridge.java:166-182 | one file at offset 0 with the largest limit: empty as written, `F\ta.mp4` as intended |
| SmbjBridge.ListDirectoryPage | src/AgiBuild.Audixa.Android/Java/com/agibuild/audixa/smb/SmbjBridge.java:165-188 | `listDirectoryPage` with the bound computed without overflow: the encoded filtered entries from the clamped offset, at most `l + 1` of them |
| SmbjBridge.AsWrittenAgreesBelowMax | src/AgiBuild.Audixa.Android/Java/com/agibuild/audixa/smb/SmbjBridge.java:165-188 | below `Integer.MAX_VALUE` the code as written and the corrected code agree |
| SmbjBridge.PageSignalsMore | src/AgiBuild.Audixa.Android/Java/com/agibuild/audixa/smb/SmbjBridge.java:168-184 | the page holds `l + 1` items exactly when more than `l` entries follow the offset |
| SmbjBridge.PageItems | src/AgiBuild.Audixa.Android/Java/com/agibuild/audixa/smb/SmbjBridge.java:168-188 | item `i` of the page is the encoding of filtered entry `o + i` |
| SmbjBridge.Page | src/AgiBuild.Audixa.Android/Java/com/agibuild/audixa/smb/SmbjBridge.java:165-188 | the page `listDirectoryPage` is meant to return; PageSignalsMore and PageItems state its size and items, and ListDirectoryPage computes it |
| SmbjBridge.WindowsConcat | src/AgiBuild.Audixa.Android/Java/com/agibuild/audixa/smb/SmbjBridge.java:168-184 | two adjacent windows make the window of their combined size, so successive pages cover the listing |
| SmbjBridge.HandleTable.constructor | src/AgiBuild.Audixa.Android/Java/com/agibuild/audixa/smb/SmbjBridge.java:23-24 | the counter starts at 1 and the table is empty |
| SmbjBridge.HandleTable.Open | src/AgiBuild.Audixa.Android/Java/com/agibuild/audixa/smb/SmbjBridge.java:58-59 | a new handle gets the counter's value, larger than every id issued before, so ids start at 1, increase strictly and are never reused |
| SmbjBridge.HandleTable.Read | src/AgiBuild.Audixa.Android/Java/com/agibuild/audixa/smb/SmbjBridge.java:66-79 | an unknown handle, or an offset at or past the size, gives -1 without reading; otherwise the file's read count is returned |
| SmbjBridge.HandleTable.Length | src/AgiBuild.Audixa.Android/Java/com/agibuild/audixa/smb/SmbjBridge.java:81-84 | the size of a known handle, otherwise -1 |
| SmbjBridge.HandleTable.Close | src/AgiBuild.Audixa.Android/Java/com/agibuild/audixa/smb/SmbjBridge.java:86-96 | the handle leaves the table, whether it was known or not; the counter is unchanged |
| SmbjBridge.CloseThenUse | src/AgiBuild.Audixa.Android/Java/com/agibuild/audixa/smb/SmbjBridge.java:81-90 | after `close`, `length` and `read` on that handle both give -1 |
| SubtitleTime.Field | src/AgiBuild.Audixa/Services/Impl/SubtitleService.cs:190-194 | a fixed-width field has a value exactly when it is all digits |
| SubtitleTime.ReadClock | src/AgiBuild.Audixa/Services/Impl/SubtitleService.cs:189-194 | the exact-format reader for `TimeSpan.TryParseExact` with `h:mm:ss[.fff]`: every time it accepts is below one day |
| SubtitleTime.TimeOf | src/AgiBuild.Audixa/Services/Impl/SubtitleService.cs:164-195 | `TryParseTime` on a string: every accepted time is below one day |
| SubtitleTime.TryParseTime | src/AgiBuild.Audixa/Services/Impl/SubtitleService.cs:164-195 | the method, with its colon-counting loop, succeeds exactly when `TimeOf` accepts the string, and then returns that time; on failure the time is zero |
| SubtitleTime.EndTime | src/AgiBuild.Audixa/Services/Impl/SubtitleService.cs:155-159 | the end part is cut at its first space when that space is not the first character |
| SubtitleTime.SplitArrow | src/AgiBuild.Audixa/Services/Impl/SubtitleService.cs:151-153 | the line splits exactly when it contains `-->` |
| SubtitleTime.TimeRange | src/AgiBuild.Audixa/Services/Impl/SubtitleService.cs:146-162 | an accepted timing line contains `-->` and both of its times are below one day |
| SubtitleTime.TryParseTimeRange | src/AgiBuild.Audixa/Services/Impl/SubtitleService.cs:146-162 | the method succeeds exactly when `TimeRange` accepts the line, and returns its two times |
| SubtitleTime.Two | src/AgiBuild.Audixa/Services/Impl/SubtitleService.cs:190-194 | a two-digit field |
| SubtitleTime.Three | src/AgiBuild.Audixa/Services/Impl/SubtitleService.cs:190-194 | a three-digit field |
| SubtitleTime.MinuteStamp | src/AgiBuild.Audixa/Services/Impl/SubtitleService.cs:177-187 | the short `MM:SS.fff` timestamp has nine characters |
| SubtitleTime.Stamp | src/AgiBuild.Audixa/Services/Impl/SubtitleService.cs:169-170 | the long `HH:MM:SS.fff` timestamp has twelve characters |
| SubtitleTime.MinuteStampChars | src/AgiBuild.Audixa/Services/Impl/SubtitleService.cs:178-187 | a short timestamp holds one colon and only timestamp characters |
| SubtitleTime.StampChars12 | src/AgiBuild.Audixa/Services/Impl/SubtitleService.cs:178-187 | a long timestamp holds two colons and only timestamp characters |
| SubtitleTime.TwoValue | src/AgiBuild.Audixa/Services/Impl/SubtitleService.cs:190-194 | a two-digit field reads back as its number |
| SubtitleTime.ThreeValue | src/AgiBuild.Audixa/Services/Impl/SubtitleService.cs:190-194 | a three-digit field reads back as its number |
| SubtitleTime.ReadStamp | src/AgiBuild.Audixa/Services/Impl/SubtitleService.cs:189-194 | the exact reader reads back every long timestamp written with a dot |
| SubtitleTime.SrtStampTime | src/AgiBuild.Audixa/Services/Impl/SubtitleService.cs:171-175 | SRT reads `HH:MM:SS,fff` because commas become dots |
| SubtitleTime.VttStampTime | src/AgiBuild.Audixa/Services/Impl/SubtitleService.cs:164-195 | VTT reads `HH:MM:SS.fff` as it is |
| SubtitleTime.VttRejectsComma | src/AgiBuild.Audixa/Services/Impl/SubtitleService.cs:171-175 | VTT does not turn commas into dots, so `HH:MM:SS,fff` is rejected |
| SubtitleTime.MinuteStampTime | src/AgiBuild.Audixa/Services/Impl/SubtitleService.cs:178-187 | a time with a single colon is read as `MM:SS.fff` with zero hours |
| SubtitleTime.StampBelowHour | src/AgiBuild.Audixa/Services/Impl/SubtitleService.cs:184-187 | below an hour, the long timestamp is the short one behind `00:` |
| SubtitleTime.ReadClockHours | src/AgiBuild.Audixa/Services/Impl/SubtitleService.cs:190-194 | hours from 24 on are rejected |
| SubtitleTime.MinuteExample | src/AgiBuild.Audixa.Tests/SubtitleServiceTests.cs:77-92 | `00:01.000` in a VTT file is 1000 ms |
| SubtitleTime.SrtExample | src/AgiBuild.Audixa.Tests/SubtitleServiceTests.cs:13-33 | `00:00:02,500` in an SRT file is 2500 ms |
| SubtitleTime.ArrowAfter | src/AgiBuild.Audixa/Services/Impl/SubtitleService.cs:151 | the split happens at the first `-->` |
| SubtitleTime.EndTimeCuts | src/AgiBuild.Audixa/Services/Impl/SubtitleService.cs:155-159 | cue settings after a space are dropped from the end time |
| SubtitleTime.ArrowAfterStamp | src/AgiBuild.Audixa/Services/Impl/SubtitleService.cs:151 | a timestamp, a space and `-->` split into the timestamp and the trimmed rest |
| SubtitleTime.EndOfStamp | src/AgiBuild.Audixa/Services/Impl/SubtitleService.cs:151-159 | a trimmed ` stamp settings` part gives the stamp as end time |
| SubtitleTime.TimingParts | src/AgiBuild.Audixa/Services/Impl/SubtitleService.cs:151-159 | `a --> b settings` splits into `a` and the end time `b` |
| SubtitleTime.TimingLine | src/AgiBuild.Audixa/Services/Impl/SubtitleService.cs:146-162 | `a --> b settings` is accepted exactly when both `a` and `b` are, with their two times |
| SubtitleTime.SrtTimingLine | src/AgiBuild.Audixa/Services/Impl/SubtitleService.cs:146-175 | every SRT timing line written from two times below a day reads back as those times |
| SubtitleTime.VttTimingLine | src/AgiBuild.Audixa/Services/Impl/SubtitleService.cs:146-162 | every VTT timing line written from two times, with or without settings, reads back as those times |
| SubtitleTime.VttMinuteTimingLine | src/AgiBuild.Audixa/Services/Impl/SubtitleService.cs:146-187 | the same for the hour-less VTT form |
| SubtitleService.ReadLine | src/AgiBuild.Audixa/Services/Impl/SubtitleService.cs:127-130 | `StringReader.ReadLine` on text left over: the line before the first break and a strictly shorter rest, with `\r\n` as one break |
| SubtitleService.ReadLineNoBreaks | src/AgiBuild.Audixa/Services/Impl/SubtitleService.cs:127-130 | a line read holds no line break |
| SubtitleService.TrimEndChar | src/AgiBuild.Audixa/Services/Impl/SubtitleService.cs:131 | `TrimEnd('\r')` never lengthens the line |
| SubtitleService.TrimEndNoop | src/AgiBuild.Audixa/Services/Impl/SubtitleService.cs:131 | on a line read, the trim changes nothing |
| SubtitleService.SplitLines | src/AgiBuild.Audixa/Services/Impl/SubtitleService.cs:124-134 | the loop returns the lines `ReadLine` gives until the text is used up |
| SubtitleService.LinesNoBreaks | src/AgiBuild.Audixa/Services/Impl/SubtitleService.cs:124-134 | no split line holds a line break |
| SubtitleService.ReadLineStep | src/AgiBuild.Audixa/Services/Impl/SubtitleService.cs:127-130 | a line followed by `\n`, `\r` or `\r\n` is read off as one line |
| SubtitleService.ReadLastLine | src/AgiBuild.Audixa/Services/Impl/SubtitleService.cs:127-130 | a last line without a break is read as it is |
| SubtitleService.LinesOfJoin | src/AgiBuild.Audixa/Services/Impl/SubtitleService.cs:124-134 | splitting lines joined by a line break gives them back, when none holds a break and the last is not empty |
| SubtitleService.LinesOfTerminated | src/AgiBuild.Audixa/Services/Impl/SubtitleService.cs:124-134 | the same for text that ends with a line break |
| SubtitleService.IsAllDigits | src/AgiBuild.Audixa/Services/Impl/SubtitleService.cs:136-144 | the loop accepts exactly the non-empty strings of ASCII digits `0`-`9` |
| SubtitleService.RunLength | src/AgiBuild.Audixa/Services/Impl/SubtitleService.cs:59-65 | the text run after a timing line |
| SubtitleService.Ranges | src/AgiBuild.Audixa/Services/Impl/SubtitleService.cs:51-102 | one timing per line |
| SubtitleService.RangesAt | src/AgiBuild.Audixa/Services/Impl/SubtitleService.cs:51-102 | the timing of line `k` is `TimeRange` of that line |
| SubtitleService.RangesDrop | src/AgiBuild.Audixa/Services/Impl/SubtitleService.cs:35-68 | the timings of a suffix are the suffix of the timings |
| SubtitleService.RangesAppend | src/AgiBuild.Audixa/Services/Impl/SubtitleService.cs:35-68 | the timings distribute over concatenation |
| SubtitleService.ScanBlank | src/AgiBuild.Audixa/Services/Impl/SubtitleService.cs:38-93 | a blank line is skipped |
| SubtitleService.ScanSkip | src/AgiBuild.Audixa/Services/Impl/SubtitleService.cs:44-97 | an all-digit SRT index, or a VTT line without `-->`, before the timing line is skipped |
| SubtitleService.TimedFail | src/AgiBuild.Audixa/Services/Impl/SubtitleService.cs:51-106 | a timing line that does not read gives no cue and is skipped |
| SubtitleService.TimedCue | src/AgiBuild.Audixa/Services/Impl/SubtitleService.cs:56-118 | a timing line that reads gives one cue with its times and the following non-blank lines joined by line breaks, and scanning goes on after them |
| SubtitleService.RunLengthStep | src/AgiBuild.Audixa/Services/Impl/SubtitleService.cs:59-65 | a non-blank line lengthens the text run by one |
| SubtitleService.RunLengthStop | src/AgiBuild.Audixa/Services/Impl/SubtitleService.cs:59 | a blank line ends the text run |
| SubtitleService.JoinSnoc | src/AgiBuild.Audixa/Services/Impl/SubtitleService.cs:61-63 | appending a line puts a line break before it unless the text is empty |
| SubtitleService.ReadText | src/AgiBuild.Audixa/Services/Impl/SubtitleService.cs:58-65 | the text loop stops at the end of the run of non-blank lines and returns them joined by line breaks |
| SubtitleService.ScanOne | src/AgiBuild.Audixa/Services/Impl/SubtitleService.cs:35-119 | one pass of the loop advances the index, adds at most one cue, and leaves the rest of the scan unchanged |
| SubtitleService.ScanTimed | src/AgiBuild.Audixa/Services/Impl/SubtitleService.cs:48-67 | the part of that pass from where a timing line is expected |
| SubtitleService.ScanCues | src/AgiBuild.Audixa/Services/Impl/SubtitleService.cs:35-119 | the shared loop returns exactly the cues the scan specification gives, in input order |
| SubtitleService.ParseSrt | src/AgiBuild.Audixa/Services/Impl/SubtitleService.cs:26-71 | `ParseSrt` returns the SRT cues of the split lines |
| SubtitleService.ParseVtt | src/AgiBuild.Audixa/Services/Impl/SubtitleService.cs:73-122 | `ParseVtt` skips a leading `WEBVTT` line (any case) and returns the VTT cues of the rest |
| SubtitleService.ParseAsync | src/AgiBuild.Audixa/Services/Impl/SubtitleService.cs:13-24 | the format picks the parser; any other format gives no cues |
| SubtitleService.Parse | src/AgiBuild.Audixa/Services/Impl/SubtitleService.cs:13-24 | the cues of a text in a format; ParseAsync states the choice of parser and SrtFileRoundTrip the cues of a written file |
| SubtitleRoundTrip.ReadAll | src/AgiBuild.Audixa/Services/Impl/SubtitleService.cs:51-102 | a timing reader applied to every line |
| SubtitleRoundTrip.ReaderArrow | src/AgiBuild.Audixa/Services/Impl/SubtitleService.cs:151-153 | `TimeRange` accepts only lines that hold `-->` |
| SubtitleRoundTrip.RangesRead | src/AgiBuild.Audixa/Services/Impl/SubtitleService.cs:146-162 | the timings the scan uses are those of that reader |
| SubtitleRoundTrip.ReadAllDrop | src/AgiBuild.Audixa/Services/Impl/SubtitleService.cs:35-68 | reading a suffix gives the suffix of the readings |
| SubtitleRoundTrip.ArrowLineKept | src/AgiBuild.Audixa/Services/Impl/SubtitleService.cs:38-96 | a line holding `-->` is neither blank nor skipped as an index or cue id |
| SubtitleRoundTrip.RunOfText | src/AgiBuild.Audixa/Services/Impl/SubtitleService.cs:59-65 | the text run covers exactly the non-blank lines before a blank line |
| SubtitleRoundTrip.ScanAfterBlank | src/AgiBuild.Audixa/Services/Impl/SubtitleService.cs:38-42 | a blank line in front changes nothing |
| SubtitleRoundTrip.TimedBlock | src/AgiBuild.Audixa/Services/Impl/SubtitleService.cs:51-67 | a timing line that reads, then text lines and a blank line, gives one cue |
| SubtitleRoundTrip.IdSkipped | src/AgiBuild.Audixa/Services/Impl/SubtitleService.cs:44-97 | an id line in front of a block is skipped |
| SubtitleRoundTrip.TimingTaken | src/AgiBuild.Audixa/Services/Impl/SubtitleService.cs:44-97 | a timing line is never skipped as an id |
| SubtitleRoundTrip.BlockCues | src/AgiBuild.Audixa/Services/Impl/SubtitleService.cs:35-68 | a written block gives exactly its cue |
| SubtitleRoundTrip.RenderRead | src/AgiBuild.Audixa/Services/Impl/SubtitleService.cs:35-68 | blocks written one after another with blank lines between them read back as their cues, in order, for any reader that only accepts `-->` lines |
| SubtitleRoundTrip.RenderCons | src/AgiBuild.Audixa/Services/Impl/SubtitleService.cs:35-68 | how a first block and the rest are laid out |
| SubtitleRoundTrip.AllFitTail | src/AgiBuild.Audixa/Services/Impl/SubtitleService.cs:35-68 | the blocks after a fitting first block fit |
| SubtitleRoundTrip.RenderRoundTrip | src/AgiBuild.Audixa/Services/Impl/SubtitleService.cs:35-119 | the lines of written blocks parse back to the blocks' cues, in either format |
| SubtitleRoundTrip.SrtRoundTrip | src/AgiBuild.Audixa/Services/Impl/SubtitleService.cs:26-71 | the same for `ParseSrt` on lines |
| SubtitleRoundTrip.CuesAfterBlank | src/AgiBuild.Audixa/Services/Impl/SubtitleService.cs:38-93 | a blank line in front gives the same cues |
| SubtitleRoundTrip.VttRoundTrip | src/AgiBuild.Audixa/Services/Impl/SubtitleService.cs:73-122 | a `WEBVTT` header and a blank line in front of written blocks are skipped |
| SubtitleRoundTrip.VttRoundTripNoHeader | src/AgiBuild.Audixa/Services/Impl/SubtitleService.cs:73-122 | without a header, the blocks read back all the same |
| SubtitleRoundTrip.TimingsDrop | src/AgiBuild.Audixa/Services/Impl/SubtitleService.cs:35-68 | a suffix has no more timing lines than the whole |
| SubtitleRoundTrip.ScanCount | src/AgiBuild.Audixa/Services/Impl/SubtitleService.cs:35-68 | the scan gives at most one cue per line that reads as a timing |
| SubtitleRoundTrip.TimedCount | src/AgiBuild.Audixa/Services/Impl/SubtitleService.cs:48-68 | the same from where a timing line is expected |
| SubtitleRoundTrip.ReadAllCons | src/AgiBuild.Audixa/Services/Impl/SubtitleService.cs:35-68 | readings of a line in front |
| SubtitleRoundTrip.TimedNone | src/AgiBuild.Audixa/Services/Impl/SubtitleService.cs:51-55 | a timing line that fails to read is skipped |
| SubtitleRoundTrip.ScanNone | src/AgiBuild.Audixa/Services/Impl/SubtitleService.cs:38-55 | a line that does not read as a timing produces no cue |
| SubtitleRoundTrip.NoTimingRead | src/AgiBuild.Audixa/Services/Impl/SubtitleService.cs:35-68 | lines none of which reads as a timing, up to a blank line, produce no cue |
| SubtitleRoundTrip.NoTimingNoCue | src/AgiBuild.Audixa/Services/Impl/SubtitleService.cs:35-68 | the same for `TimeRange` |
| SubtitleRoundTrip.CueCount | src/AgiBuild.Audixa/Services/Impl/SubtitleService.cs:35-119 | there are never more cues than timing lines that read |
| SubtitleRoundTrip.RenderedLast | src/AgiBuild.Audixa/Services/Impl/SubtitleService.cs:59-65 | written blocks end with a non-empty line |
| SubtitleRoundTrip.SrtFileRoundTrip | src/AgiBuild.Audixa/Services/Impl/SubtitleService.cs:13-134 | a whole SRT file written from blocks, joined by any line break and with or without a final one, parses back to their cues |
| SubtitleRoundTrip.HeaderLines | src/AgiBuild.Audixa/Services/Impl/SubtitleService.cs:124-134 | a VTT header, a blank line and the blocks split back into those lines |
| SubtitleRoundTrip.VttFileRoundTrip | src/AgiBuild.Audixa/Services/Impl/SubtitleService.cs:13-134 | a whole VTT file with a header parses back to the blocks' cues |
| SubtitleRoundTrip.VttFileTerminated | src/AgiBuild.Audixa/Services/Impl/SubtitleService.cs:13-134 | the same when the file ends with a line break |
| SubtitleRoundTrip.VttFileNoHeader | src/AgiBuild.Audixa/Services/Impl/SubtitleService.cs:13-134 | a VTT file without a header parses back to the blocks' cues |
| SubtitleExamples.T1Timing | src/AgiBuild.Audixa.Tests/SubtitleServiceTests.cs:17 | the SRT timing line `00:00:01,000 --> 00:00:02,500` reads as 1000 ms to 2500 ms |
| SubtitleExamples.T2Timing | src/AgiBuild.Audixa.Tests/SubtitleServiceTests.cs:21 | `00:00:03,000 --> 00:00:04,000` reads as 3000 ms to 4000 ms |
| SubtitleExamples.V1Timing | src/AgiBuild.Audixa.Tests/SubtitleServiceTests.cs:42 | the VTT timing line `00:01.000 --> 00:02.500`, without hours, reads as 1000 ms to 2500 ms |
| SubtitleExamples.V2Timing | src/AgiBuild.Audixa.Tests/SubtitleServiceTests.cs:45 | `00:03.000 --> 00:04.000` reads as 3000 ms to 4000 ms |
| SubtitleExamples.CueIdSkipped | src/AgiBuild.Audixa.Tests/SubtitleServiceTests.cs:41 | the cue id `cue-1` is neither blank nor a timing line, so the VTT scan skips it |
| SubtitleExamples.SrtBasic | src/AgiBuild.Audixa.Tests/SubtitleServiceTests.cs:13-33 | the two-block SRT text parses to two cues, the first from 1000 ms to 2500 ms reading `Hello` |
| SubtitleExamples.VttWithHeader | src/AgiBuild.Audixa.Tests/SubtitleServiceTests.cs:35-56 | the VTT text with a header and a cue id parses to two cues, the second reading `World`, the first starting at 1000 ms |
| SubtitleExamples.SrtMultiline | src/AgiBuild.Audixa.Tests/SubtitleServiceTests.cs:58-75 | a cue with two text lines keeps them joined by `\n` |
| SubtitleExamples.VttWithoutHours | src/AgiBuild.Audixa.Tests/SubtitleServiceTests.cs:77-92 | a VTT file without a header and with `MM:SS.fff` times gives one cue from 1000 ms to 2500 ms |
| SubtitleExamples.SrtSingle | src/AgiBuild.Audixa.Tests/ViewModelTests/PlayerViewModelTests.cs:24-27 | the one-cue SRT file of the view-model tests parses to one cue from 1000 ms to 2000 ms reading `Hello` |
| Player.NextMask | src/AgiBuild.Audixa/ViewModels/PlayerViewModel.cs:127-136 | `ToggleMask` always changes the mode |
| Player.MaskCycle | src/AgiBuild.Audixa/ViewModels/PlayerViewModel.cs:129-136 | four presses bring the mode back and visit all four modes |
| Player.MaskText | src/AgiBuild.Audixa/ViewModels/PlayerViewModel.cs:256-261 | nothing is shown exactly for a missing or empty text; a masked text shows six bullets; an unmasked one shows as it is |
| Player.FirstNear | src/AgiBuild.Audixa/ViewModels/PlayerViewModel.cs:241 | the index found is a secondary cue starting within 500 ms of the primary start, and none is found only when no cue does |
| Player.RowContents | src/AgiBuild.Audixa/ViewModels/PlayerViewModel.cs:222-247 | row `i` holds primary cue `i`'s times and text, and secondary cue `i`'s text when there is one, otherwise the first near secondary cue's text or none |
| Player.CoveringRow | src/AgiBuild.Audixa/ViewModels/PlayerViewModel.cs:189-204 | the row found covers the position with the offset applied, and none is found only when no row does |
| Player.ActiveAfterGap | src/AgiBuild.Audixa/ViewModels/PlayerViewModel.cs:180-205 | with no row covering the position, the active index stays what it was (or -1 without rows) |
| Player.ActiveAfterCovers | src/AgiBuild.Audixa/ViewModels/PlayerViewModel.cs:180-205 | an active row covers the position, and no earlier row does |
| Player.ActiveAfter | src/AgiBuild.Audixa/ViewModels/PlayerViewModel.cs:180-205 | `-1` without rows, otherwise the previous index or a row covering the position; ActiveAfterGap and ActiveAfterCovers say which |
| Player.Displayed | src/AgiBuild.Audixa/ViewModels/PlayerViewModel.cs:69-77 | the displayed text is empty when no row is active, and otherwise the active row's text, masked per side |
| Player.DisplayedMasks | src/AgiBuild.Audixa/ViewModels/PlayerViewModel.cs:69-77 | `Blind` hides both sides; with no mask both show as they are; `HideSecondary` shows the primary text unmasked |
| Player.ExtensionStart | src/AgiBuild.Audixa/ViewModels/PlayerViewModel.cs:251 | `Path.GetExtension`'s dot: a '.' with no directory separator and no other dot after it |
| Player.ExtensionStartAt | src/AgiBuild.Audixa/ViewModels/PlayerViewModel.cs:251 | a dot followed only by ordinary characters is the extension's dot |
| Player.GuessFormatVtt | src/AgiBuild.Audixa/ViewModels/PlayerViewModel.cs:249-254 | the format is WebVTT exactly when the file name ends in `.vtt` in any case, and otherwise SRT, never `Other` |
| Player.GuessFormat | src/AgiBuild.Audixa/ViewModels/PlayerViewModel.cs:249-254 | never `Other`; GuessFormatVtt states when it is WebVTT |
| Player.SentenceOf | src/AgiBuild.Audixa/ViewModels/PlayerViewModel.cs:150-161 | the saved sentence keeps the row's length and texts, shifted by the primary offset, for the current item |
| Player.SentenceCoversRow | src/AgiBuild.Audixa/ViewModels/PlayerViewModel.cs:150-194 | the saved sentence spans exactly the positions at which its row is active |
| Player.CoveringFirst | src/AgiBuild.Audixa/ViewModels/PlayerViewModel.cs:189-203 | a scan that stops at the first covering row finds what `CoveringRow` finds |
| Player.CoveringNone | src/AgiBuild.Audixa/ViewModels/PlayerViewModel.cs:189-204 | a scan that finds no covering row agrees with `CoveringRow` |
| Player.PlayerViewModel.constructor | src/AgiBuild.Audixa/ViewModels/PlayerViewModel.cs:29-67 | no cues and no rows, active index -1, offsets 0 |
| Player.PlayerViewModel.TogglePlayPause | src/AgiBuild.Audixa/ViewModels/PlayerViewModel.cs:79-90 | pause when playing, play otherwise |
| Player.PlayerViewModel.RebuildRows | src/AgiBuild.Audixa/ViewModels/PlayerViewModel.cs:222-247 | the loop lays out exactly the rows `RowContents` describes |
| Player.PlayerViewModel.UpdateActiveIndex | src/AgiBuild.Audixa/ViewModels/PlayerViewModel.cs:180-205 | the loop leaves the active index at the first covering row, -1 without rows, unchanged if none covers |
| Player.PlayerViewModel.LoadPrimarySubtitle | src/AgiBuild.Audixa/ViewModels/PlayerViewModel.cs:92-103 | nothing changes without a picked file; otherwise the primary cues are its parse in the guessed format and the rows and active index are rebuilt |
| Player.PlayerViewModel.LoadSecondarySubtitle | src/AgiBuild.Audixa/ViewModels/PlayerViewModel.cs:105-116 | the same for the secondary cues |
| Player.PlayerViewModel.SeekToRow | src/AgiBuild.Audixa/ViewModels/PlayerViewModel.cs:118-124 | seek to the row's start plus the primary offset, then play |
| Player.PlayerViewModel.ToggleMask | src/AgiBuild.Audixa/ViewModels/PlayerViewModel.cs:126-140 | the mask mode advances by `NextMask` |
| Player.PlayerViewModel.SaveCurrentSentence | src/AgiBuild.Audixa/ViewModels/PlayerViewModel.cs:142-165 | nothing happens without an item or an active row; otherwise the active row's sentence is stored, then the toast `Saved` is shown |
| Player.PlayerViewModel.OnPlaybackStateChanged | src/AgiBuild.Audixa/ViewModels/PlayerViewModel.cs:167-178 | a position change updates the active index; other changes leave it |
| Player.PlayerViewModel.AdjustPrimaryOffset | src/AgiBuild.Audixa/ViewModels/PlayerViewModel.cs:207-212 | the `int` offset grows by the delta with 32-bit wrap-around and the active row is recomputed |
| Player.PlayerViewModel.AdjustSecondaryOffset | src/AgiBuild.Audixa/ViewModels/PlayerViewModel.cs:214-220 | only the secondary offset changes, with 32-bit wrap-around |
| PlayerExamples.SrtPathFormat | src/AgiBuild.Audixa/ViewModels/PlayerViewModel.cs:249-254 | a `.srt` file is read as SRT |
| PlayerExamples.LoadAndSave | src/AgiBuild.Audixa.Tests/ViewModelTests/PlayerViewModelTests.cs:20-96 | loading the one-cue file gives one row `Hello`; at 1500 ms it is active and shown; saving stores it for `m1` and shows the toast `Saved` |
| Playback.AutoSaves | src/AgiBuild.Audixa/Services/Impl/PlaybackService.cs:53-62 | at most one save per position update |
| Playback.AutoSavesSpaced | src/AgiBuild.Audixa/Services/Impl/PlaybackService.cs:22-62 | each save comes at least 10 s and 1 s of position after the previous save, or after the window's start |
| Playback.AutoSavesQuiet | src/AgiBuild.Audixa/Services/Impl/PlaybackService.cs:55-56 | over less than 10 s no save happens |
| Playback.ThrottledRun | src/AgiBuild.Audixa.Tests/PlaybackServiceTests.cs:98-129 | the five updates of the throttling test give exactly two saves |
| Playback.PlaybackService.constructor | src/AgiBuild.Audixa/Services/Impl/PlaybackService.cs:17-25 | no item, position 0, no duration, not playing, speed 1, no mask and no error |
| Playback.PlaybackService.OnPositionChanged | src/AgiBuild.Audixa/Services/Impl/PlaybackService.cs:44-63 | the position is recorded; with an item, while playing and with the throttle passed, the progress is saved and the window moves to it; otherwise nothing is saved |
| Playback.PlaybackService.TryApplyResumeSeek | src/AgiBuild.Audixa/Services/Impl/PlaybackService.cs:166-182 | with the guard met, seek once to the pending position and mark it applied; otherwise nothing changes |
| Playback.PlaybackService.OnDurationChanged | src/AgiBuild.Audixa/Services/Impl/PlaybackService.cs:65-69 | the duration is recorded, then the resume seek is tried |
| Playback.PlaybackService.OnErrorRaised | src/AgiBuild.Audixa/Services/Impl/PlaybackService.cs:71-76 | the error goes into the state and is shown as a top alert |
| Playback.PlaybackService.Play | src/AgiBuild.Audixa/Services/Impl/PlaybackService.cs:79-94 | without an item only the error `No media loaded.`; otherwise the error clears, the resume seek is tried, the autosave window restarts at the current time and position, and playback starts |
| Playback.PlaybackService.Pause | src/AgiBuild.Audixa/Services/Impl/PlaybackService.cs:96-106 | playback stops, and progress is saved exactly when an item is loaded |
| Playback.PlaybackService.Seek | src/AgiBuild.Audixa/Services/Impl/PlaybackService.cs:108-112 | the adapter seeks and the position is recorded |
| Playback.PlaybackService.SetSpeed | src/AgiBuild.Audixa/Services/Impl/PlaybackService.cs:114-124 | a speed that is not positive leaves `Invalid speed.` and no other change; otherwise the adapter and the state take the speed |
| Playback.PlaybackService.Open | src/AgiBuild.Audixa/Services/Impl/PlaybackService.cs:126-147 | a fresh state for the item, a new autosave window and no pending resume; the adapter opens the input, the item is announced and recorded |
| Playback.PlaybackService.ResumePositionLoaded | src/AgiBuild.Audixa/Services/Impl/PlaybackService.cs:149-164 | only a stored position above zero becomes the pending resume |
| PlaybackExamples.PlayWithoutMedia | src/AgiBuild.Audixa.Tests/PlaybackServiceTests.cs:15-29 | `Play` without media sets `No media loaded.` and does not play |
| PlaybackExamples.OpenThenPlay | src/AgiBuild.Audixa.Tests/PlaybackServiceTests.cs:31-56 | open then play: the item is current, playing, the adapter opened the input and played once, and the item was recorded once |
| PlaybackExamples.PauseSaves | src/AgiBuild.Audixa.Tests/PlaybackServiceTests.cs:58-80 | pausing saves 12 s for `m1` at the clock's time |
| PlaybackExamples.AdapterError | src/AgiBuild.Audixa.Tests/PlaybackServiceTests.cs:82-96 | an adapter error `boom` is in the state and in a top alert |
| PlaybackExamples.ThrottledSaves | src/AgiBuild.Audixa.Tests/PlaybackServiceTests.cs:98-129 | the throttled updates save at 3 s and 6 s only |
| PlaybackExamples.ResumeOnce | src/AgiBuild.Audixa/Services/Impl/PlaybackService.cs:149-182 | a stored 5 s is sought once when the duration is first known, and never again |
| PlayerExamples.LoadAndSaveText | src/AgiBuild.Audixa.Tests/ViewModelTests/PlayerViewModelTests.cs:20-96 | for any file that parses to the one cue, the same scenario gives the same rows, active row, shown text and effects |
| LibraryStore.LaterFirstPreorder | src/AgiBuild.Audixa/Stores/Impl/InMemoryLibraryStore.cs:37 | ordering plays latest first is a total preorder, so the stable sort applies |
| LibraryStore.Ids | src/AgiBuild.Audixa/Stores/Impl/InMemoryLibraryStore.cs:38 | one id per record, in order |
| LibraryStore.ItemsOf | src/AgiBuild.Audixa/Stores/Impl/InMemoryLibraryStore.cs:40-43 | one item per record, the record's own |
| LibraryStore.IdsOthers | src/AgiBuild.Audixa/Stores/Impl/InMemoryLibraryStore.cs:18-38 | the ids left after dropping an id's records are the other ids |
| LibraryStore.FirstPerIdIds | src/AgiBuild.Audixa/Stores/Impl/InMemoryLibraryStore.cs:38-39 | keeping the first record per id lists the ids as `Distinct` does |
| LibraryStore.LookupItems | src/AgiBuild.Audixa/Stores/Impl/InMemoryLibraryStore.cs:40-41 | looking ids up and dropping the unknown ones gives the items of the records whose ids are known |
| LibraryStore.FilterDescending | src/AgiBuild.Audixa/Stores/Impl/InMemoryLibraryStore.cs:41 | dropping records keeps a latest-first order |
| LibraryStore.FilterUnique | src/AgiBuild.Audixa/Stores/Impl/InMemoryLibraryStore.cs:41 | dropping records keeps the ids distinct |
| LibraryStore.FirstPerIdUnique | src/AgiBuild.Audixa/Stores/Impl/InMemoryLibraryStore.cs:39 | the first record per id keeps records of the input, with distinct ids |
| LibraryStore.FirstPerIdCovers | src/AgiBuild.Audixa/Stores/Impl/InMemoryLibraryStore.cs:39 | every id of the input keeps a record |
| LibraryStore.DescendingTail | src/AgiBuild.Audixa/Stores/Impl/InMemoryLibraryStore.cs:37 | the tail of a latest-first list is latest first, and its head is latest |
| LibraryStore.FirstPerIdDescending | src/AgiBuild.Audixa/Stores/Impl/InMemoryLibraryStore.cs:37-39 | the first record per id keeps a latest-first order |
| LibraryStore.FirstPerIdLatest | src/AgiBuild.Audixa/Stores/Impl/InMemoryLibraryStore.cs:37-39 | on a latest-first list the record kept for an id is its latest play |
| LibraryStore.SortMembers | src/AgiBuild.Audixa/Stores/Impl/InMemoryLibraryStore.cs:37 | sorting keeps exactly the records of the list |
| LibraryStore.RecentRecordsFacts | src/AgiBuild.Audixa/Stores/Impl/InMemoryLibraryStore.cs:36-41 | the records behind the list: known ids only, latest first, distinct ids, each its id's latest play, every known played id present, and their items are what the query pipeline looks up |
| LibraryStore.TakePrefix | src/AgiBuild.Audixa/Stores/Impl/InMemoryLibraryStore.cs:42 | `Take` gives a prefix, the whole list when it is shorter than the limit |
| LibraryStore.RecentItemsFacts | src/AgiBuild.Audixa/Stores/Impl/InMemoryLibraryStore.cs:34-46 | `GetRecentAsync`: at most `max(limit, 0)` items, latest first, distinct, each its id's latest play of an item still known; with room to spare every known played id appears |
| LibraryStore.RecentItems | src/AgiBuild.Audixa/Stores/Impl/InMemoryLibraryStore.cs:34-46 | `GetRecentAsync` on the store's contents; RecentItemsFacts states its order, distinctness, latest-play and completeness properties |
| LibraryStore.InMemoryLibraryStore.GetRecent | src/AgiBuild.Audixa/Stores/Impl/InMemoryLibraryStore.cs:34-46 | at most `max(limit, 0)` items, each an item the store holds |
| LibraryStore.ItemsOfTake | src/AgiBuild.Audixa/Stores/Impl/InMemoryLibraryStore.cs:40-42 | taking after looking up is looking up after taking |
| LibraryStore.UpsertRecents | src/AgiBuild.Audixa/Stores/Impl/InMemoryLibraryStore.cs:18-19 | after an upsert the item's id has exactly one play record, the new one, and other ids keep theirs |
| LibraryStore.OthersOfSame | src/AgiBuild.Audixa/Stores/Impl/InMemoryLibraryStore.cs:18 | `RemoveAll` leaves no record of the id |
| LibraryStore.OthersOfOther | src/AgiBuild.Audixa/Stores/Impl/InMemoryLibraryStore.cs:18 | `RemoveAll` leaves another id's records as they were |
| LibraryStore.InMemoryLibraryStore.constructor | src/AgiBuild.Audixa/Stores/Impl/InMemoryLibraryStore.cs:11-13 | empty items, positions and plays |
| LibraryStore.InMemoryLibraryStore.UpsertMedia | src/AgiBuild.Audixa/Stores/Impl/InMemoryLibraryStore.cs:15-21 | the item is stored under its id, its old plays are dropped and the new play is appended |
| LibraryStore.InMemoryLibraryStore.SaveProgress | src/AgiBuild.Audixa/Stores/Impl/InMemoryLibraryStore.cs:23-27 | the position is stored under the id and reads back; the update time is dropped |
| LibraryStore.InMemoryLibraryStore.GetLastPosition | src/AgiBuild.Audixa/Stores/Impl/InMemoryLibraryStore.cs:29-32 | the saved position, and none exactly for an id never saved |
| LearningStore.LiveSentencesAdd | src/AgiBuild.Audixa/Stores/Impl/InMemoryLearningStore.cs:13-25 | adding a sentence adds one to the count exactly when it is not deleted, at the end of the live list |
| LearningStore.LiveVocabularyAdd | src/AgiBuild.Audixa/Stores/Impl/InMemoryLearningStore.cs:19-26 | the same for vocabulary |
| LearningStore.LiveSentencesPage | src/AgiBuild.Audixa/Stores/Impl/InMemoryLearningStore.cs:28-29 | the page is the first `min(max(limit, 0), count)` live sentences, in insertion order, none deleted |
| LearningStore.LiveVocabularyPage | src/AgiBuild.Audixa/Stores/Impl/InMemoryLearningStore.cs:31-32 | the same for vocabulary |
| LearningStore.InMemoryLearningStore.GetSavedSentenceCount | src/AgiBuild.Audixa/Stores/Impl/InMemoryLearningStore.cs:25 | the count of live sentences, never more than the stored ones; AddSavedSentence states how it grows |
| LearningStore.InMemoryLearningStore.GetVocabularyCount | src/AgiBuild.Audixa/Stores/Impl/InMemoryLearningStore.cs:26 | the same for vocabulary; AddVocabulary states how it grows |
| LearningStore.InMemoryLearningStore.GetSavedSentences | src/AgiBuild.Audixa/Stores/Impl/InMemoryLearningStore.cs:28-29 | the first `min(max(limit, 0), count)` live sentences, in insertion order |
| LearningStore.InMemoryLearningStore.GetVocabulary | src/AgiBuild.Audixa/Stores/Impl/InMemoryLearningStore.cs:31-32 | the first `min(max(limit, 0), count)` live vocabulary items, in insertion order |
| LearningStore.InMemoryLearningStore.constructor | src/AgiBuild.Audixa/Stores/Impl/InMemoryLearningStore.cs:10-11 | both lists start empty |
| LearningStore.InMemoryLearningStore.AddSavedSentence | src/AgiBuild.Audixa/Stores/Impl/InMemoryLearningStore.cs:13-17 | the sentence is appended as it is, and the count grows exactly when it is not deleted; the vocabulary is not touched |
| LearningStore.InMemoryLearningStore.AddVocabulary | src/AgiBuild.Audixa/Stores/Impl/InMemoryLearningStore.cs:19-23 | the same for vocabulary, leaving the sentences alone |
| SecretProtector.Frame | src/AgiBuild.Audixa.Android/Platform/AndroidKeystoreSecretProtector.cs:17-41 | the payload is the version byte 1, the IV length byte, the IV and the ciphertext |
| SecretProtector.Unframe | src/AgiBuild.Audixa.Android/Platform/AndroidKeystoreSecretProtector.cs:48-64 | fewer than 2 bytes or an IV longer than the rest is an invalid payload; a version other than 1 is unsupported; otherwise the IV and the ciphertext are split off |
| SecretProtector.UnframeFrame | src/AgiBuild.Audixa.Android/Platform/AndroidKeystoreSecretProtector.cs:37-64 | unframing a frame gives its IV and ciphertext back |
| SecretProtector.FrameUnframe | src/AgiBuild.Audixa.Android/Platform/AndroidKeystoreSecretProtector.cs:37-64 | every payload accepted is the frame of what it is split into |
| SecretProtector.BlockCopy | src/AgiBuild.Audixa.Android/Platform/AndroidKeystoreSecretProtector.cs:40-64 | `Buffer.BlockCopy` replaces exactly the target range with the source range |
| SecretProtector.Protect | src/AgiBuild.Audixa.Android/Platform/AndroidKeystoreSecretProtector.cs:34-42 | an IV over 255 bytes fails with `IV too long.`; otherwise a fresh array holding the frame |
| SecretProtector.Unprotect | src/AgiBuild.Audixa.Android/Platform/AndroidKeystoreSecretProtector.cs:45-64 | the header errors of `Unframe`, and otherwise fresh arrays holding the IV and the ciphertext |
| Domain.PlaybackState.constructor | src/AgiBuild.Audixa/Services/PlaybackState.cs:9-28 | no item, position 0, no duration, not playing, speed 1, no mask, no error |
| Ints.Wrap32 | src/AgiBuild.Audixa/ViewModels/PlayerViewModel.cs:210-217 | unchecked `int` addition: a 32-bit value congruent to the sum modulo 2^32 |
| Ints.Wrap32InRange | src/AgiBuild.Audixa/ViewModels/PlayerViewModel.cs:210-217 | a sum that fits is kept as it is |
| Ints.Wrap64 | src/AgiBuild.Audixa.Desktop/Video/WebView2MediaPlayerAdapter.cs:167 | unchecked `long` arithmetic: a 64-bit value congruent to the exact result modulo 2^64 |
| Ints.Wrap64InRange | src/AgiBuild.Audixa.Desktop/Video/WebView2MediaPlayerAdapter.cs:167 | a result that fits in a `long` is kept as it is |
| Ints.Wrap64Below | src/AgiBuild.Audixa.Desktop/Video/WebView2MediaPlayerAdapter.cs:167 | a result below the least `long`, by at most 2^64, comes out 2^64 higher |
| LocalHttpProxy.Magnitude | src/AgiBuild.Audixa.Desktop/Video/WebView2MediaPlayerAdapter.cs:196-198 | a value exactly for a non-empty run of ASCII digits |
| LocalHttpProxy.ParseLong | src/AgiBuild.Audixa.Desktop/Video/WebView2MediaPlayerAdapter.cs:196-198 | `long.TryParse` with `NumberStyles.Integer`: any number it accepts fits in a `long`, and is not negative without a minus sign |
| LocalHttpProxy.ParseSigned | src/AgiBuild.Audixa.Desktop/Video/WebView2MediaPlayerAdapter.cs:196-198 | the same after the white space is trimmed |
| LocalHttpProxy.ParseLongPadded | src/AgiBuild.Audixa.Desktop/Video/WebView2MediaPlayerAdapter.cs:196-198 | the decimal digits of a `long`, padded with white space, parse back to it |
| LocalHttpProxy.ParseLongDigits | src/AgiBuild.Audixa.Desktop/Video/WebView2MediaPlayerAdapter.cs:196-198 | the decimal digits of a `long` parse back to it |
| LocalHttpProxy.ParseLongNegative | src/AgiBuild.Audixa.Desktop/Video/WebView2MediaPlayerAdapter.cs:196-198 | a minus sign negates the digits, down to the least `long` |
| LocalHttpProxy.NegativeDigits | src/AgiBuild.Audixa.Desktop/Video/WebView2MediaPlayerAdapter.cs:196-198 | the same for any digit string of that value |
| LocalHttpProxy.ParseRange | src/AgiBuild.Audixa.Desktop/Video/WebView2MediaPlayerAdapter.cs:188-208 | the first byte read is never negative and the last byte never lies past the end of the file |
| LocalHttpProxy.SpecRange | src/AgiBuild.Audixa.Desktop/Video/WebView2MediaPlayerAdapter.cs:192-207 | the same after the trim |
| LocalHttpProxy.PartsRange | src/AgiBuild.Audixa.Desktop/Video/WebView2MediaPlayerAdapter.cs:196-207 | the same after the split at the first '-' |
| LocalHttpProxy.HeaderSpec | src/AgiBuild.Audixa.Desktop/Video/WebView2MediaPlayerAdapter.cs:191 | the trim changes nothing when the spec has no white space at its ends |
| LocalHttpProxy.SplitAtDash | src/AgiBuild.Audixa.Desktop/Video/WebView2MediaPlayerAdapter.cs:192 | `Split('-', 2)` of digits, '-', and anything splits there |
| LocalHttpProxy.DigitsRange | src/AgiBuild.Audixa.Desktop/Video/WebView2MediaPlayerAdapter.cs:188-208 | `bytes=x-y` with digit strings is read part by part |
| LocalHttpProxy.ParseRangeBoth | src/AgiBuild.Audixa.Desktop/Video/WebView2MediaPlayerAdapter.cs:196-201 | `bytes=a-b` asks for bytes `a` to `b`, with `b` cut to the last byte of the file |
| LocalHttpProxy.ParseRangeOpen | src/AgiBuild.Audixa.Desktop/Video/WebView2MediaPlayerAdapter.cs:196-204 | `bytes=a-` asks for everything from `a` on |
| LocalHttpProxy.NegativeRange | src/AgiBuild.Audixa.Desktop/Video/WebView2MediaPlayerAdapter.cs:188-208 | `bytes=x--d` with digit strings is read part by part, the last part being `-d` |
| LocalHttpProxy.ParseRangeNegativeEnd | src/AgiBuild.Audixa.Desktop/Video/WebView2MediaPlayerAdapter.cs:196-201 | `bytes=a--m` asks for bytes `a` to `-m`, cut to the last byte of the file |
| LocalHttpProxy.ParseRangeSuffix | src/AgiBuild.Audixa.Desktop/Video/WebView2MediaPlayerAdapter.cs:196-207 | a suffix range `bytes=-n` is read as the whole file |
| LocalHttpProxy.ParseRangeNoDash | src/AgiBuild.Audixa.Desktop/Video/WebView2MediaPlayerAdapter.cs:192-194 | a header without a '-' is read as the whole file |
| LocalHttpProxy.Respond | src/AgiBuild.Audixa.Desktop/Video/WebView2MediaPlayerAdapter.cs:133-186 | 404 exactly for another path or no file; the whole file exactly when the header is not a range request; a partial answer only for a range request, starting inside the file and ending before its end; an abort only for a range request starting inside the file whose last byte, for a file no longer than a `long`, comes before `start - 1`; a wrapped answer only for a range request starting inside the file whose `end - start + 1` lies below the least `long`, announcing that length plus 2^64, which is positive; 416 only for a first byte past the end |
| LocalHttpProxy.SpanAnswer | src/AgiBuild.Audixa.Desktop/Video/WebView2MediaPlayerAdapter.cs:160-175 | 416 exactly for a first byte past the end; otherwise the span as read, aborted exactly when the unchecked `long` length is negative, wrapped when that length is positive but `end - start + 1` is not, partial otherwise |
| LocalHttpProxy.LengthWraps | src/AgiBuild.Audixa.Desktop/Video/WebView2MediaPlayerAdapter.cs:167 | `end - start + 1` as a `long` is itself when it fits and is 2^64 higher when it lies below the least `long` |
| LocalHttpProxy.RespondRange | src/AgiBuild.Audixa.Desktop/Video/WebView2MediaPlayerAdapter.cs:157-170 | `bytes=a-b` on `/video`: 416 for `a` past the end, an abort for a last byte before `a - 1`, otherwise a partial answer for the bytes `a` to `b` cut to the end |
| LocalHttpProxy.VideoPathMatches | src/AgiBuild.Audixa.Desktop/Video/WebView2MediaPlayerAdapter.cs:135 | `/video` passes the path test |
| LocalHttpProxy.RespondHeader | src/AgiBuild.Audixa.Desktop/Video/WebView2MediaPlayerAdapter.cs:157-170 | on `/video` with a file, a range request is answered from what `ParseRange` reads |
| LocalHttpProxy.RangeRequestOf | src/AgiBuild.Audixa.Desktop/Video/WebView2MediaPlayerAdapter.cs:157 | a header starting with `bytes=` is a range request |
| LocalHttpProxy.ReversedRangeAborts | src/AgiBuild.Audixa.Desktop/Video/WebView2MediaPlayerAdapter.cs:167-170 | `bytes=10-5` on a 100-byte file gives a negative length, which aborts the answer |
| LocalHttpProxy.WrappedRangeExample | src/AgiBuild.Audixa.Desktop/Video/WebView2MediaPlayerAdapter.cs:167-175 | `bytes=2--9223372036854775808` on a 100-byte file: the length wraps to the greatest `long`, announced with status 206 |
| LocalHttpProxy.EmptyFileRange | src/AgiBuild.Audixa.Desktop/Video/WebView2MediaPlayerAdapter.cs:160-165 | an empty file answers every range request with 416 |
| LocalHttpProxy.FileReader.constructor | src/AgiBuild.Audixa.Desktop/Video/WebView2MediaPlayerAdapter.cs:172-181 | a file opened at position 0 |
| LocalHttpProxy.FileReader.Remaining | src/AgiBuild.Audixa.Desktop/Video/WebView2MediaPlayerAdapter.cs:216 | what is left after the position, none past the end |
| LocalHttpProxy.FileReader.Seek | src/AgiBuild.Audixa.Desktop/Video/WebView2MediaPlayerAdapter.cs:173 | the position becomes the offset |
| LocalHttpProxy.FileReader.Read | src/AgiBuild.Audixa.Desktop/Video/WebView2MediaPlayerAdapter.cs:216 | a read returns the next `min(count, left)` bytes and moves on by as many |
| LocalHttpProxy.ResponseBody.constructor | src/AgiBuild.Audixa.Desktop/Video/WebView2MediaPlayerAdapter.cs:174-183 | nothing written yet |
| LocalHttpProxy.ResponseBody.Write | src/AgiBuild.Audixa.Desktop/Video/WebView2MediaPlayerAdapter.cs:219 | the first `count` bytes of the buffer are appended |
| LocalHttpProxy.Copied | src/AgiBuild.Audixa.Desktop/Video/WebView2MediaPlayerAdapter.cs:210-222 | `length` bytes, or what the input has left, and none for a length that is not positive |
| LocalHttpProxy.CopyFixedLength | src/AgiBuild.Audixa.Desktop/Video/WebView2MediaPlayerAdapter.cs:210-222 | the output gains exactly the next `Copied` bytes of the input, in writes of 1 to 65536 bytes, and the input moves on by as many |
| LocalHttpProxy.CopyToEnd | src/AgiBuild.Audixa.Desktop/Video/WebView2MediaPlayerAdapter.cs:181-184 | the output gains everything the input has left |
| LocalHttpProxy.ServeFrom | src/AgiBuild.Audixa.Desktop/Video/WebView2MediaPlayerAdapter.cs:172-175 | the body of a 206 answer is the file from `start`, `length` bytes long or up to the end of the file |
| LocalHttpProxy.ServeWhole | src/AgiBuild.Audixa.Desktop/Video/WebView2MediaPlayerAdapter.cs:179-185 | the body of a whole answer is the file |
| LocalHttpProxy.RespondFits | src/AgiBuild.Audixa.Desktop/Video/WebView2MediaPlayerAdapter.cs:159-170 | every answer's span lies inside the file it was given |
| LocalHttpProxy.RespondHeaders | src/AgiBuild.Audixa.Desktop/Video/WebView2MediaPlayerAdapter.cs:142-180 | the headers of `Handle`'s answers: 404 exactly for another path or no file, and only then no `Accept-Ranges` and `Content-Type`; 200 exactly for a non-range request, with the file's length; 206 exactly for a range request whose first byte lies in the file, and `Content-Range` exactly with 206, including the answer aborted by a negative length; the span's length on a partial answer; no length with 416 or an abort |
| LocalHttpProxy.RestOfFile | src/AgiBuild.Audixa.Desktop/Video/WebView2MediaPlayerAdapter.cs:167-174 | a wrapped length exceeds what a file no longer than a `long` has left, so the body is the rest of the file and shorter than announced |
| LocalHttpProxy.HeadersOf | src/AgiBuild.Audixa.Desktop/Video/WebView2MediaPlayerAdapter.cs:142-180 | which status, length and headers each kind of answer carries; `Content-Range` goes with status 206, on partial, aborted and wrapped answers alike |
| LocalHttpProxy.StatusCode | src/AgiBuild.Audixa.Desktop/Video/WebView2MediaPlayerAdapter.cs:142-178 | the status set for each answer; stated by RespondHeaders |
| LocalHttpProxy.ContentLength | src/AgiBuild.Audixa.Desktop/Video/WebView2MediaPlayerAdapter.cs:168-179 | the `ContentLength64` set; Serve proves the body is exactly that long, except after a wrap |
| LocalHttpProxy.ContentRange | src/AgiBuild.Audixa.Desktop/Video/WebView2MediaPlayerAdapter.cs:169 | the `Content-Range` header set at line 169, on a partial answer, on one whose length setter then throws and on one whose length wrapped; RespondHeaders states it is set exactly with status 206 |
| LocalHttpProxy.FileHeaders | src/AgiBuild.Audixa.Desktop/Video/WebView2MediaPlayerAdapter.cs:150-151 | `Accept-Ranges: bytes` and `Content-Type: video/mp4` once the file is found; RespondHeaders states when |
| LocalHttpProxy.Answer | src/AgiBuild.Audixa.Desktop/Video/WebView2MediaPlayerAdapter.cs:159-185 | the body is the span of a partial answer or the whole file, as long as `Content-Length` says; after a wrap, the rest of the file from `start`, shorter than announced |
| LocalHttpProxy.Serve | src/AgiBuild.Audixa.Desktop/Video/WebView2MediaPlayerAdapter.cs:133-186 | `Handle` with its body: the answer `Respond` gives, with exactly the bytes it names, as many as the `Content-Length` header states; after a wrap, the rest of the file from `start`, shorter than announced; and no body otherwise |

## Left out

- Concurrency: the cache's `lock`, the UI dispatcher's `Post` and every `async` hand-off run as plain sequential calls; a resume position that arrives while other calls are in flight is modelled as one more call, `ResumePositionLoaded`.
- `CancellationToken`s are dropped; no operation is cancelled.
- Clock readings, fresh ids (`Guid.NewGuid`) and the picked file are parameters of the operations that use them.
- `Playback.PlaybackService.Open` takes one clock reading for both the autosave window and the library record, where the source reads the clock twice.
- Speed is a `real`; `double` rounding, NaN and infinities are not modelled, only the `speed <= 0` guard.
- `TimeSpan` and `DateTimeOffset` are whole milliseconds; `TimeSpan.TryParseExact` is modelled as a reader of `H:MM:SS.fff` and `HH:MM:SS.fff` with hours below 24.
- The subtitle parser is given the decoded text; reading the stream and UTF-8 decoding are left out.
- `Environment.NewLine` is `\n`.
- `System.Uri` is modelled by a small reader of `scheme://[user@]host[:port]/path` that lower-cases the host; IPv6 literals, percent-decoding and IDN host names are not modelled.
- SmbPath.TryCreateUri: does not model `System.Uri`'s canonicalisation of the path (percent-escaping of spaces, non-ASCII characters and characters such as `<`, `>` and `"`, `\` turned into `/`, removal of `.` and `..` segments) or its host validation; so SmbPath.SmbUriReads, SmbPath.SmbUriBranch, SmbPath.SmbUriRootParses and SmbPath.LocatorRoundTrip are stated only for plain hosts and plain shares, which that canonicalisation leaves as written, and a `..` segment in the path after the share, which `System.Uri` would fold into the share, is not modelled.
- SubtitleService.IsAllDigits: accepts ASCII `0`-`9` only, where `char.IsDigit` accepts every Unicode decimal digit; a cue index in other digits is then read as a failed timing line and stepped over, as a skipped index line is, so the cues ParseSrt returns are the same.
- `long.TryParse` is modelled for ASCII white space, one sign and ASCII digits; its other accepted forms, such as trailing `\0` characters, are not.
- The SMB connection, authentication, the share's `FileIdBothDirectoryInformation` objects and connection cleanup in `finally` blocks: a listing is the sequence of directory records the share returns.
- The handle table keeps only each handle's file size; the SMB file read itself is a parameter of `read` (the count it returns), so only the guards of `read`, `length` and `close` are modelled. `NEXT_ID` is an unbounded integer; `AtomicLong` overflow is not modelled.
- Java `int` overflow of the listing's `idx` counter is ignored (a listing has fewer than 2^31 entries); the one overflow that can happen, in `listDirectoryPage`, is reported under Findings.
- The AES-GCM cipher and the Android keystore: `Protect` is given the IV and ciphertext, and `Unprotect` returns them.
- SecretProtector.BlockCopy requires distinct source and target arrays; `Buffer.BlockCopy` within one array is not used by the source.
- The HTTP listener, port selection, `ListenLoop`, `BindFile` and `Dispose`: a request is given as its path, its `Range` header and the bound file's bytes.
- LocalHttpProxy.Serve: after a wrapped length the response is closed with fewer bytes than its `Content-Length` announces; what `HttpListener` then does on the connection is not modelled, and the body is stated only for files no longer than a `long`, as every `FileInfo.Length` is.
- Strings.ToLower, Strings.ToUpper and Strings.EqualsIgnoreCase change the case of ASCII letters only; non-ASCII case folding is lost in the `ToLowerInvariant` of the CachedSmbBrowser cache key, in the `OrdinalIgnoreCase` comparisons (the `/video` path, the `bytes=` prefix, the `.vtt` and `.mp4` extensions, `WEBVTT` and the `smb` scheme), and in the upper-cased characters by which `OrdinalIgnoreCase` orders the names AndroidSmbBrowser sorts.
- Strings.IntToString: `int.ToString()` and `long` formatting use the current culture; the model assumes one whose negative sign is `-`.
- Player.IsSeparator and Player.Extension follow `Path.GetExtension` on Windows, where `\` also separates directories; on Android and iOS only `/` does, which changes the extension only of a name whose last `\` comes after its last dot, and never which format GuessFormat picks.
- LocalHttpProxy.CopyToEnd models `Stream.CopyToAsync` as a single read and write of what is left.
- LocalHttpProxy.FileReader.Read returns the full count asked for or what is left, as a local `FileStream` does; short reads are not modelled.
- A reversed range whose length comes out negative makes the `ContentLength64` setter throw, and `ListenLoop` then closes the response; this is modelled as the answer `Aborted`, which keeps the 206 status, the file headers and the `Content-Range` header set before the throw.
- `OnPropertyChanged` notifications, commands and views are not modelled; the displayed texts are functions of the state.
- SubtitleRoundTrip.VttFileRoundTrip and SubtitleRoundTrip.VttFileTerminated are stated for at least one block; a header alone gives no cues by SubtitleRoundTrip.VttRoundTrip.
- The test scenarios are stated on the test text's lines joined by `\n`, not on one string literal.
- SQLite stores, Windows DPAPI, SHA-256 ids, the media adapters and the user interface are outside this model.

## Findings

| source | as written | input that shows it | evidently intended | confidence | as-written member | corrected member |
|---|---|---|---|---|---|---|
| src/AgiBuild.Audixa.Android/Java/com/agibuild/audixa/smb/SmbjBridge.java:182 | the loop breaks once `items.size() >= safeLimit + 1`; that `int` sum wraps to `Integer.MIN_VALUE` for `limit = Integer.MAX_VALUE`, so the loop breaks before adding any entry and the page is empty | one file `a.mp4`, `offset = 0`, `limit = Integer.MAX_VALUE` | the bound computed without overflow, so the page holds `F\ta.mp4` | not executed | SmbjBridge.ListDirectoryPageAsWritten, SmbjBridge.MaxLimitEmptiesPage, SmbjBridge.MaxLimitExample | SmbjBridge.ListDirectoryPage |
