/**
 * Share roots and relative paths (`SmbPath`): parsing a UNC root
 * `\\host\share[\...]` or an `smb://host/share[/...]` URI into its host and
 * share, normalising a relative path to backslash form, and building the
 * credential-free `smb://` locator of a file.
 */
module SmbPath {
  import opened Wrappers
  import opened Strings

  /** The value returned by `TryParseRoot` together with its two out parameters. */
  datatype RootParse = RootParse(ok: bool, host: string, share: string)

  const Rejected: RootParse := RootParse(false, "", "")

  // ---------------------------------------------------------------- a reader for absolute URIs

  /** The parts of an absolute URI that `TryParseRoot` reads. */
  datatype Uri = Uri(scheme: string, host: string, absolutePath: string)

  predicate IsAsciiLetter(c: char) {
    'a' <= c <= 'z' || 'A' <= c <= 'Z'
  }

  /** A URI scheme: a letter followed by letters, digits, `+`, `-` or `.`. */
  predicate IsSchemeName(s: string) {
    |s| >= 1 && IsAsciiLetter(s[0]) &&
    forall i :: 1 <= i < |s| ==> IsAsciiLetter(s[i]) || IsAsciiDigit(s[i]) || s[i] in "+-."
  }

  predicate EndsAuthority(c: char) {
    c == '/' || c == '?' || c == '#'
  }

  predicate EndsPath(c: char) {
    c == '?' || c == '#'
  }

  /** The host of an authority: drop `userinfo@`, then a `:port` that must be decimal. */
  function HostOf(authority: string): (r: Option<string>)
    ensures r.Some? ==> '@' !in r.value && ':' !in r.value
  {
    var hostPort := match LastIndexOfChar(authority, '@')
      case None => authority
      case Some(at) => authority[at + 1..];
    match SplitFirst(hostPort, ':')
    case None => Some(hostPort)
    case Some(hp) =>
      if forall i :: 0 <= i < |hp.1| ==> IsAsciiDigit(hp.1[i]) then Some(hp.0) else None
  }

  /** The path of a URI stops before `?` or `#`. */
  function PathOf(rest: string): (r: string)
    ensures |r| <= |rest|
  {
    rest[..Span(rest, EndsPath)]
  }

  /** After `//`: the authority runs to the first `/`, `?` or `#`; its host is lower-cased. */
  function ReadAuthority(t: string): (r: Option<(string, string)>)
    ensures r.Some? ==> r.value.1 != ""
  {
    var a := Span(t, EndsAuthority);
    match HostOf(t[..a])
    case None => None
    case Some(host) =>
      var path := PathOf(t[a..]);
      Some((ToLower(host), if path == "" then "/" else path))
  }

  /**
   * What follows `scheme:`: `//authority` then a path, or a bare path.
   * Gives (host, path).
   */
  function ReadHierPart(after: string): (r: Option<(string, string)>)
    ensures r.Some? && !StartsWith(after, "//") ==> r.value.0 == ""
  {
    if StartsWith(after, "//") then ReadAuthority(after[2..])
    else Some(("", PathOf(after)))
  }

  /**
   * `Uri.TryCreate(s, UriKind.Absolute, out uri)`, reduced to what is read
   * here: `scheme ":" ["//" [userinfo "@"] host [":" port]] path ["?" ...] ["#" ...]`.
   * A one-letter scheme is a drive letter and makes a `file` URI.
   */
  function TryCreateUri(s: string): (r: Option<Uri>)
    ensures r.Some? ==> ':' in s && s[0] != ':'
    ensures r.Some? ==> r.value.scheme == "file" || StartsWith(s, r.value.scheme + ":")
  {
    match IndexOfChar(s, ':')
    case None => None
    case Some(k) =>
      var scheme := s[..k];
      assert s[..k + 1] == scheme + ":";
      if !IsSchemeName(scheme) then None
      else if |scheme| == 1 then Some(Uri("file", "", "/"))
      else
        match ReadHierPart(s[k + 1..])
        case None => None
        case Some(hp) => Some(Uri(scheme, hp.0, hp.1))
  }

  // ---------------------------------------------------------------- TryParseRoot

  /** The UNC branch, on a trimmed input that starts with two backslashes. */
  function ParseUnc(s: string): (r: RootParse)
    requires StartsWith(s, "\\\\")
    ensures r.ok ==> !IsBlank(r.host) && !IsBlank(r.share)
    ensures '\\' !in r.host && '\\' !in r.share
  {
    var parts := SplitNonEmpty(s[2..], '\\');
    SplitNonEmptyPieces(s[2..], '\\');
    if |parts| < 2 then Rejected
    else RootParse(!IsBlank(parts[0]) && !IsBlank(parts[1]), parts[0], parts[1])
  }

  /** The URI branch: only the `smb` scheme, in any letter case, is accepted. */
  function ParseSmbUri(s: string): (r: RootParse)
    ensures r.ok ==> !IsBlank(r.host) && !IsBlank(r.share)
    ensures r.ok ==> '/' !in r.share
  {
    match TryCreateUri(s)
    case None => Rejected
    case Some(uri) =>
      if !EqualsIgnoreCase(uri.scheme, "smb") then Rejected
      else
        var seg := SplitNonEmpty(uri.absolutePath, '/');
        SplitNonEmptyPieces(uri.absolutePath, '/');
        if |seg| < 1 then RootParse(false, uri.host, "")
        else RootParse(!IsBlank(uri.host) && !IsBlank(seg[0]), uri.host, seg[0])
  }

  /**
   * `TryParseRoot(input, out host, out share)`. Blank input is rejected with
   * both outs empty; a trimmed input starting with `\\` is read as UNC only;
   * anything else must be an absolute `smb:` URI.
   */
  function TryParseRoot(input: Option<string>): (r: RootParse)
    ensures IsNullOrBlank(input) ==> r == Rejected
    ensures r.ok ==> !IsBlank(r.host) && !IsBlank(r.share)
    ensures !IsNullOrBlank(input) && StartsWith(Trim(input.value), "\\\\") ==>
              r == ParseUnc(Trim(input.value)) && '\\' !in r.host && '\\' !in r.share
    ensures !IsNullOrBlank(input) && !StartsWith(Trim(input.value), "\\\\") ==>
              r == ParseSmbUri(Trim(input.value))
  {
    if IsNullOrBlank(input) then Rejected
    else
      var s := Trim(input.value);
      if StartsWith(s, "\\\\") then ParseUnc(s) else ParseSmbUri(s)
  }

  /** The characters a host or share must avoid to be read back as one URI component. */
  predicate IsUriComponent(s: string, forbidden: string) {
    s != [] && !IsWhiteSpace(s[0]) && forall i :: 0 <= i < |s| ==> s[i] !in forbidden
  }

  /**
   * A host that `System.Uri` keeps as written apart from letter case: a
   * letter (so it is never read as a numeric IPv4 address), then letters,
   * digits, `-` or `.`.
   */
  predicate IsPlainHost(s: string) {
    s != [] && IsAsciiLetter(s[0]) &&
    forall i :: 0 <= i < |s| ==> IsAsciiLetter(s[i]) || IsAsciiDigit(s[i]) || s[i] in "-."
  }

  /**
   * A share that `System.Uri` neither percent-escapes nor folds away as a dot
   * segment: unreserved characters of section 2.3 of RFC 3986, other than
   * `.` and `..`.
   */
  predicate IsPlainShare(s: string) {
    s != [] && s != "." && s != ".." &&
    forall i :: 0 <= i < |s| ==> IsAsciiLetter(s[i]) || IsAsciiDigit(s[i]) || s[i] in "-._~"
  }

  /** Plain hosts and shares are components the URI reader reads back whole. */
  lemma PlainComponents(host: string, share: string)
    requires IsPlainHost(host) && IsPlainShare(share)
    ensures IsUriComponent(host, ":/?#@")
    ensures IsUriComponent(share, "/?#") && EndsNonBlank(share)
  {
    assert IsAsciiLetter(host[0]);
    var last := share[|share| - 1];
    assert IsAsciiLetter(last) || IsAsciiDigit(last) || last in "-._~";
  }

  /** The last character of a root string; trimming must leave it in place. */
  predicate EndsNonBlank(s: string) {
    s != [] && !IsWhiteSpace(s[|s| - 1])
  }

  /** Trimming leaves an input with non-whitespace ends as it is. */
  lemma TrimNoopAtEnds(s: string)
    requires s != [] && !IsWhiteSpace(s[0]) && !IsWhiteSpace(s[|s| - 1])
    ensures Trim(s) == s && !IsBlank(s)
  {
    TrimByNoop(s, IsWhiteSpace);
  }

  /**
   * Trimming a root `head + tail`, where `head` has non-whitespace ends,
   * keeps `head` and a prefix of `tail`.
   */
  lemma TrimRoot(head: string, tail: string)
    requires head != [] && !IsWhiteSpace(head[0]) && !IsWhiteSpace(head[|head| - 1])
    ensures Trim(head + tail) == head + tail[..|tail| - TrailCount(tail, IsWhiteSpace)]
    ensures !IsBlank(head + tail)
  {
    TrimByKeepsHead(head, tail, IsWhiteSpace);
    assert (head + tail)[0] == head[0];
  }

  /** The pieces of `host \ share tail` are host, share and those of the tail. */
  lemma UncPieces(host: string, share: string, tail: string)
    requires IsUriComponent(host, "\\") && IsUriComponent(share, "\\")
    requires tail == [] || tail[0] == '\\'
    ensures var parts := SplitNonEmpty(host + "\\" + share + tail, '\\');
      |parts| >= 2 && parts[0] == host && parts[1] == share
  {
    assert '\\' !in host && '\\' !in share by {
      assert forall i :: 0 <= i < |host| ==> host[i] != '\\';
      assert forall i :: 0 <= i < |share| ==> share[i] != '\\';
    }
    PiecesAt(host, share, tail, '\\');
  }

  /** `SplitNonEmpty` at `c` of `host c share tail`, where the tail is empty or starts with `c`. */
  lemma PiecesAt(host: string, share: string, tail: string, c: char)
    requires host != [] && share != [] && c !in host && c !in share
    requires tail == [] || tail[0] == c
    ensures var parts := SplitNonEmpty(host + [c] + share + tail, c);
      |parts| >= 2 && parts[0] == host && parts[1] == share
  {
    assert host + [c] + share + tail == host + [c] + (share + tail);
    SplitNonEmptyCons(host, share + tail, c);
    FirstSegment(share, tail, c);
  }

  /** The UNC branch on `\\host\share tail`. */
  lemma UncBranch(host: string, share: string, tail: string)
    requires IsUriComponent(host, "\\") && IsUriComponent(share, "\\")
    requires tail == [] || tail[0] == '\\'
    ensures ParseUnc("\\\\" + host + "\\" + share + tail) == RootParse(true, host, share)
  {
    var s := "\\\\" + host + "\\" + share + tail;
    assert s[2..] == host + "\\" + share + tail;
    UncPieces(host, share, tail);
  }

  /**
   * Every UNC root `\\host\share` followed by nothing or by a `\`-led tail
   * parses to exactly (host, share), whatever the tail holds.
   */
  lemma UncRootParses(host: string, share: string, tail: string)
    requires IsUriComponent(host, "\\") && IsUriComponent(share, "\\") && EndsNonBlank(share)
    requires tail == [] || tail[0] == '\\'
    ensures TryParseRoot(Some("\\\\" + host + "\\" + share + tail)) == RootParse(true, host, share)
  {
    var head := "\\\\" + host + "\\" + share;
    assert head[|head| - 1] == share[|share| - 1];
    TrimRoot(head, tail);
    var kept := tail[..|tail| - TrailCount(tail, IsWhiteSpace)];
    assert kept == [] || kept[0] == '\\';
    UncStart(head, kept);
    UncDispatch(head + tail, head + kept);
    UncBranch(host, share, kept);
  }

  /** A non-blank input whose trim starts with `\\` takes the UNC branch. */
  lemma UncDispatch(input: string, s: string)
    requires !IsBlank(input) && Trim(input) == s && StartsWith(s, "\\\\")
    ensures TryParseRoot(Some(input)) == ParseUnc(s)
  {
  }

  /** A string led by `\\` still starts with `\\` once something is appended. */
  lemma UncStart(head: string, kept: string)
    requires |head| >= 2 && head[0] == '\\' && head[1] == '\\'
    ensures StartsWith(head + kept, "\\\\")
  {
    assert (head + kept)[..2] == "\\\\";
  }

  /** `ToUpperChar` is `S`, `M` or `B` only for that letter in either case. */
  lemma SmbSchemeLetters(scheme: string)
    requires EqualsIgnoreCase(scheme, "smb")
    ensures |scheme| == 3 && IsSchemeName(scheme) && ':' !in scheme
  {
    assert |scheme| == |ToUpper(scheme)| == 3;
    ToUpperAt(scheme, 0);
    ToUpperAt(scheme, 1);
    ToUpperAt(scheme, 2);
  }

  /** A host without `@` or `:` is its own authority. */
  lemma HostOfPlain(host: string)
    requires '@' !in host && ':' !in host
    ensures HostOf(host) == Some(host)
  {
  }

  /** The path read from `/share tail`. */
  lemma PathOfShare(share: string, tail: string)
    requires IsUriComponent(share, "/?#")
    ensures PathOf("/" + share + tail) == "/" + share + PathOf(tail)
  {
    var rest := "/" + share + tail;
    var k := Span(tail, EndsPath);
    SpanSkip("/" + share, tail, EndsPath);
    assert rest[..1 + |share| + k] == "/" + share + tail[..k];
  }

  /** The hierarchical part `//host/share tail`. */
  lemma HierPartReads(host: string, share: string, tail: string)
    requires IsUriComponent(host, ":/?#@") && IsUriComponent(share, "/?#")
    ensures ReadHierPart("//" + host + "/" + share + tail) ==
            Some((ToLower(host), "/" + share + PathOf(tail)))
  {
    var after := "//" + host + "/" + share + tail;
    var rest := "/" + share + tail;
    var t := after[2..];
    assert t == host + rest;
    assert Span(t, EndsAuthority) == |host| by {
      SpanSkip(host, rest, EndsAuthority);
    }
    assert t[..|host|] == host;
    HostOfPlain(host);
    assert t[|host|..] == rest;
    PathOfShare(share, tail);
  }

  /** The URI reader on `scheme://host/share tail`. */
  lemma SmbUriReads(scheme: string, host: string, share: string, tail: string)
    requires EqualsIgnoreCase(scheme, "smb")
    requires IsPlainHost(host) && IsPlainShare(share)
    ensures TryCreateUri(scheme + "://" + host + "/" + share + tail) ==
            Some(Uri(scheme, ToLower(host), "/" + share + PathOf(tail)))
  {
    PlainComponents(host, share);
    SmbSchemeLetters(scheme);
    var s := scheme + "://" + host + "/" + share + tail;
    var after := "//" + host + "/" + share + tail;
    assert s == scheme + [':'] + after;
    IndexOfCharAfter(scheme, after, ':');
    assert s[..3] == scheme && s[4..] == after;
    HierPartReads(host, share, tail);
  }

  /** The first non-empty `/` segment of `/share tail` is the share. */
  lemma ShareSegment(share: string, tp: string)
    requires IsUriComponent(share, "/?#")
    requires tp == [] || tp[0] == '/'
    ensures var seg := SplitNonEmpty("/" + share + tp, '/'); |seg| >= 1 && seg[0] == share
  {
    assert '/' !in share by {
      assert forall i :: 0 <= i < |share| ==> share[i] != '/';
    }
    SegmentAt(share, tp, '/');
  }

  /** The first non-empty `c` segment of `c share tail`, where the tail is empty or starts with `c`. */
  lemma SegmentAt(share: string, tp: string, c: char)
    requires share != [] && c !in share
    requires tp == [] || tp[0] == c
    ensures var seg := SplitNonEmpty([c] + share + tp, c); |seg| >= 1 && seg[0] == share
  {
    assert [c] + share + tp == [] + [c] + (share + tp);
    SplitNonEmptyCons([], share + tp, c);
    FirstSegment(share, tp, c);
  }

  /** The first non-empty `c` segment of `share tail` is `share`. */
  lemma FirstSegment(share: string, tp: string, c: char)
    requires share != [] && c !in share
    requires tp == [] || tp[0] == c
    ensures var seg := SplitNonEmpty(share + tp, c); |seg| >= 1 && seg[0] == share
  {
    if tp == [] {
      assert share + tp == share;
      SplitNonEmptySingle(share, c);
    } else {
      FirstSegmentBefore(share, tp[1..], c);
      assert share + tp == share + [c] + tp[1..];
    }
  }

  lemma FirstSegmentBefore(share: string, rest: string, c: char)
    requires share != [] && c !in share
    ensures var seg := SplitNonEmpty(share + [c] + rest, c); |seg| >= 1 && seg[0] == share
  {
    SplitNonEmptyCons(share, rest, c);
  }

  /** A tail led by `/`, `?` or `#` contributes a path that is empty or `/`-led. */
  lemma PathOfTail(tail: string)
    requires tail == [] || tail[0] in "/?#"
    ensures PathOf(tail) == [] || PathOf(tail)[0] == '/'
  {
    if tail != [] && tail[0] == '/' {
      assert Span(tail, EndsPath) >= 1;
    }
  }

  /** The URI branch accepts a URI whose path starts with its share segment. */
  lemma ParseSmbUriOf(s: string, scheme: string, host: string, share: string, tp: string)
    requires EqualsIgnoreCase(scheme, "smb") && TryCreateUri(s) == Some(Uri(scheme, host, "/" + share + tp))
    requires !IsBlank(host) && IsUriComponent(share, "/?#")
    requires tp == [] || tp[0] == '/'
    ensures ParseSmbUri(s) == RootParse(true, host, share)
  {
    ShareSegment(share, tp);
  }

  /** The URI branch on `scheme://host/share tail`, before trimming is considered. */
  lemma SmbUriBranch(scheme: string, host: string, share: string, tail: string)
    requires EqualsIgnoreCase(scheme, "smb")
    requires IsPlainHost(host) && IsPlainShare(share)
    requires tail == [] || tail[0] in "/?#"
    ensures ParseSmbUri(scheme + "://" + host + "/" + share + tail) == RootParse(true, ToLower(host), share)
  {
    PlainComponents(host, share);
    SmbUriReads(scheme, host, share, tail);
    PathOfTail(tail);
    ToLowerAt(host, 0);
    assert !IsBlank(ToLower(host)) by {
      assert !IsWhiteSpace(ToLower(host)[0]);
    }
    ParseSmbUriOf(scheme + "://" + host + "/" + share + tail, scheme, ToLower(host), share, PathOf(tail));
  }

  /**
   * Every `smb:` URI `scheme://host/share` followed by nothing or by a tail
   * starting with `/`, `?` or `#` parses to (lower-cased host, share); the
   * scheme is matched in any letter case.
   */
  lemma SmbUriRootParses(scheme: string, host: string, share: string, tail: string)
    requires EqualsIgnoreCase(scheme, "smb")
    requires IsPlainHost(host) && IsPlainShare(share)
    requires tail == [] || tail[0] in "/?#"
    ensures TryParseRoot(Some(scheme + "://" + host + "/" + share + tail)) == RootParse(true, ToLower(host), share)
  {
    PlainComponents(host, share);
    SmbSchemeLetters(scheme);
    var head := scheme + "://" + host + "/" + share;
    assert head[|head| - 1] == share[|share| - 1];
    TrimRoot(head, tail);
    var kept := tail[..|tail| - TrailCount(tail, IsWhiteSpace)];
    assert kept == [] || kept[0] in "/?#";
    assert (head + kept)[0] == scheme[0];
    NotUncStart(head + kept);
    SmbUriBranch(scheme, host, share, kept);
  }

  lemma NotUncStart(s: string)
    requires s != [] && s[0] != '\\'
    ensures !StartsWith(s, "\\\\")
  {
  }

  /** `\\host` alone names no share and is rejected. */
  lemma UncHostOnlyRejected(host: string)
    requires IsUriComponent(host, "\\") && EndsNonBlank(host)
    ensures TryParseRoot(Some("\\\\" + host)) == Rejected
  {
    var s := "\\\\" + host;
    assert s[|s| - 1] == host[|host| - 1];
    TrimNoopAtEnds(s);
    assert StartsWith(s, "\\\\") && s[2..] == host;
    SplitNonEmptySingle(host, '\\');
  }

  /** Input with no `:` that is not UNC cannot be an absolute URI. */
  lemma NoSchemeRejected(s: string)
    requires s != [] && !IsWhiteSpace(s[0]) && !IsWhiteSpace(s[|s| - 1])
    requires ':' !in s && s[0] != '\\'
    ensures TryParseRoot(Some(s)) == Rejected
  {
    TrimNoopAtEnds(s);
  }

  /** A scheme other than `smb`, in any letter case, is rejected. */
  lemma OtherSchemeRejected(scheme: string, after: string)
    requires scheme != [] && ':' !in scheme && !EqualsIgnoreCase(scheme, "smb")
    ensures ParseSmbUri(scheme + ":" + after) == Rejected
  {
    var s := scheme + ":" + after;
    IndexOfCharAfter(scheme, after, ':');
    assert s[..|scheme|] == scheme;
    assert !EqualsIgnoreCase("file", "smb") by {
      assert |ToUpper("file")| != |ToUpper("smb")|;
    }
  }

  /** An input `scheme:after` whose scheme is not `smb` is rejected, trimmed or not. */
  lemma OtherSchemeRootRejected(scheme: string, after: string)
    requires scheme != [] && ':' !in scheme && !EqualsIgnoreCase(scheme, "smb")
    requires !IsWhiteSpace(scheme[0]) && scheme[0] != '\\'
    requires after != [] && !IsWhiteSpace(after[|after| - 1])
    ensures TryParseRoot(Some(scheme + ":" + after)) == Rejected
  {
    var s := scheme + ":" + after;
    assert s[0] == scheme[0] && s[|s| - 1] == after[|after| - 1];
    TrimNoopAtEnds(s);
    assert !StartsWith(s, "\\\\") by {
      assert |s| < 2 || s[..2][0] == s[0];
    }
    OtherSchemeRejected(scheme, after);
  }

  /** How the UNC inputs of the source's unit tests split into the pieces the general lemmas take. */
  lemma UncSpellings()
    ensures "\\\\server\\share" == "\\\\" + "server" + "\\" + "share" + ""
    ensures "\\\\server\\share\\" == "\\\\" + "server" + "\\" + "share" + "\\"
    ensures "\\\\server\\share\\folder" == "\\\\" + "server" + "\\" + "share" + "\\folder"
    ensures "\\\\server" == "\\\\" + "server"
  {
  }

  lemma SmbUriSpelling()
    ensures "smb://server/share" == "smb" + "://" + "server" + "/" + "share" + ""
  {
  }

  lemma SmbUriSlashSpelling()
    ensures "smb://server/share/" == "smb" + "://" + "server" + "/" + "share" + "/"
  {
  }

  lemma SmbUriFolderSpelling()
    ensures "smb://server/share/folder" == "smb" + "://" + "server" + "/" + "share" + "/folder"
  {
  }

  lemma HttpSpelling()
    ensures "http://server/share" == "http" + ":" + "//server/share"
  {
  }

  /** `server` and `share` as the host and share of an `smb:` URI. */
  lemma ServerShareComponents()
    ensures EqualsIgnoreCase("smb", "smb")
    ensures IsPlainHost("server")
    ensures IsPlainShare("share")
  {
  }

  lemma ServerLower()
    ensures ToLower("server") == "server"
  {
    ToLowerKeeps("server");
  }

  /** `\\server\share`, `\\server\share\` and `\\server\share\folder` from the source's unit tests. */
  lemma UncExamples()
    ensures TryParseRoot(Some("\\\\server\\share")) == RootParse(true, "server", "share")
    ensures TryParseRoot(Some("\\\\server\\share\\")) == RootParse(true, "server", "share")
    ensures TryParseRoot(Some("\\\\server\\share\\folder")) == RootParse(true, "server", "share")
  {
    UncSpellings();
    UncRootParses("server", "share", "");
    UncRootParses("server", "share", "\\");
    UncRootParses("server", "share", "\\folder");
  }

  /** `smb://server/share` from the source's unit tests. */
  lemma SmbUriExample()
    ensures TryParseRoot(Some("smb://server/share")) == RootParse(true, "server", "share")
  {
    SmbUriSpelling();
    ServerLower();
    ServerShareComponents();
    SmbUriRootParses("smb", "server", "share", "");
  }

  /** `smb://server/share/` from the source's unit tests. */
  lemma SmbUriSlashExample()
    ensures TryParseRoot(Some("smb://server/share/")) == RootParse(true, "server", "share")
  {
    SmbUriSlashSpelling();
    ServerLower();
    ServerShareComponents();
    SmbUriRootParses("smb", "server", "share", "/");
  }

  /** `smb://server/share/folder` from the source's unit tests. */
  lemma SmbUriFolderExample()
    ensures TryParseRoot(Some("smb://server/share/folder")) == RootParse(true, "server", "share")
  {
    SmbUriFolderSpelling();
    ServerLower();
    ServerShareComponents();
    SmbUriRootParses("smb", "server", "share", "/folder");
  }

  /** Blank input from the source's unit tests. */
  lemma BlankRejectedExample()
    ensures TryParseRoot(Some("")) == Rejected && TryParseRoot(Some("  ")) == Rejected
  {
    assert IsBlank("  ");
  }

  /** `server/share` from the source's unit tests. */
  lemma NoSchemeRejectedExample()
    ensures TryParseRoot(Some("server/share")) == Rejected
  {
    NoSchemeRejected("server/share");
  }

  /** `http://server/share` from the source's unit tests. */
  lemma HttpRejectedExample()
    ensures TryParseRoot(Some("http://server/share")) == Rejected
  {
    HttpSpelling();
    assert !EqualsIgnoreCase("http", "smb") by {
      assert |ToUpper("http")| != |ToUpper("smb")|;
    }
    OtherSchemeRootRejected("http", "//server/share");
  }

  /** `\\server` from the source's unit tests. */
  lemma UncHostOnlyRejectedExample()
    ensures TryParseRoot(Some("\\\\server")) == Rejected
  {
    UncSpellings();
    UncHostOnlyRejected("server");
  }

  // ---------------------------------------------------------------- NormalizeRelativePath

  predicate IsBackslash(c: char) {
    c == '\\'
  }

  /** `Trim('\\')`. */
  function TrimBackslashes(p: string): (r: string)
    ensures '/' !in p ==> '/' !in r
    ensures r != [] ==> r[0] != '\\' && r[|r| - 1] != '\\'
  {
    TrimByAbsent(p, IsBackslash, '/');
    TrimBy(p, IsBackslash)
  }

  /** `NormalizeRelativePath`: trim, turn `/` into `\`, then strip `\` from both ends. */
  function NormalizeRelativePath(relativePath: Option<string>): (r: string)
    ensures '/' !in r
    ensures r != [] ==> r[0] != '\\' && r[|r| - 1] != '\\'
  {
    ReplaceRemoves(Trim(OrEmpty(relativePath)), '/', '\\');
    TrimBackslashes(Replace(Trim(OrEmpty(relativePath)), '/', '\\'))
  }

  /**
   * Normalising again changes nothing once the result has non-whitespace
   * ends; without that condition a second pass can trim newly exposed
   * whitespace (see `NormalizeNotIdempotent`).
   */
  lemma NormalizeIdempotent(relativePath: Option<string>)
    requires var n := NormalizeRelativePath(relativePath);
      n != [] ==> !IsWhiteSpace(n[0]) && !IsWhiteSpace(n[|n| - 1])
    ensures NormalizeRelativePath(Some(NormalizeRelativePath(relativePath))) == NormalizeRelativePath(relativePath)
  {
    var n := NormalizeRelativePath(relativePath);
    TrimByNoop(n, IsWhiteSpace);
    ReplaceAbsent(n, '/', '\\');
    TrimByNoop(n, IsBackslash);
  }

  lemma NormalizeBackslashSpace()
    ensures NormalizeRelativePath(Some("\\ a")) == " a"
  {
    TrimByNoop("\\ a", IsWhiteSpace);
    ReplaceAbsent("\\ a", '/', '\\');
    assert LeadCount("\\ a", IsBackslash) == 1;
    assert TrailCount("\\ a", IsBackslash) == 0;
  }

  lemma NormalizeSpace()
    ensures NormalizeRelativePath(Some(" a")) == "a"
  {
    assert LeadCount(" a", IsWhiteSpace) == 1;
    assert TrailCount(" a", IsWhiteSpace) == 0;
    assert Trim(" a") == "a";
    ReplaceAbsent("a", '/', '\\');
    TrimByNoop("a", IsBackslash);
  }

  /** `\ a` normalises to ` a`, which normalises to `a`: normalisation is not idempotent. */
  lemma NormalizeNotIdempotent()
    ensures NormalizeRelativePath(Some(NormalizeRelativePath(Some("\\ a")))) != NormalizeRelativePath(Some("\\ a"))
  {
    NormalizeBackslashSpace();
    NormalizeSpace();
  }

  predicate IsSeparator(c: char) {
    c == '/' || c == '\\'
  }

  /** A path made only of separators normalises to the empty string. */
  lemma NormalizeAllSeparators(p: string)
    requires forall i :: 0 <= i < |p| ==> IsSeparator(p[i])
    ensures NormalizeRelativePath(Some(p)) == ""
  {
    TrimByNoop(p, IsWhiteSpace);
    var q := Replace(p, '/', '\\');
    forall i | 0 <= i < |q| ensures IsBackslash(q[i]) {
      ReplaceAt(p, '/', '\\', i);
    }
    TrimByEmpty(q, IsBackslash);
  }

  /** A run of separators becomes a run of backslashes. */
  lemma SeparatorsToBackslashes(p: string)
    requires forall i :: 0 <= i < |p| ==> IsSeparator(p[i])
    ensures forall i :: 0 <= i < |p| ==> IsBackslash(Replace(p, '/', '\\')[i])
  {
    forall i | 0 <= i < |p| ensures IsBackslash(Replace(p, '/', '\\')[i]) {
      ReplaceAt(p, '/', '\\', i);
    }
  }

  /** Without surrounding whitespace, normalising is replacing then trimming backslashes. */
  lemma NormalizeUntrimmed(s: string)
    requires s != [] && !IsWhiteSpace(s[0]) && !IsWhiteSpace(s[|s| - 1])
    ensures NormalizeRelativePath(Some(s)) == TrimBy(Replace(s, '/', '\\'), IsBackslash)
  {
    TrimByNoop(s, IsWhiteSpace);
  }

  /** After replacement, the outer separators are backslashes that trimming removes. */
  lemma ReplaceThenTrim(pre: string, core: string, post: string)
    requires forall i :: 0 <= i < |pre| ==> IsSeparator(pre[i])
    requires forall i :: 0 <= i < |post| ==> IsSeparator(post[i])
    requires core != [] && !IsSeparator(core[0]) && !IsSeparator(core[|core| - 1])
    ensures TrimBy(Replace(pre + core + post, '/', '\\'), IsBackslash) == Replace(core, '/', '\\')
  {
    var c := Replace(core, '/', '\\');
    ReplaceAppend(pre + core, post, '/', '\\');
    ReplaceAppend(pre, core, '/', '\\');
    ReplaceAt(core, '/', '\\', 0);
    ReplaceAt(core, '/', '\\', |core| - 1);
    SeparatorsToBackslashes(pre);
    SeparatorsToBackslashes(post);
    TrimByCore(Replace(pre, '/', '\\'), c, Replace(post, '/', '\\'), IsBackslash);
  }

  /** Separators and a core with non-whitespace ends give non-whitespace ends. */
  lemma SeparatedEnds(pre: string, core: string, post: string)
    requires forall i :: 0 <= i < |pre| ==> IsSeparator(pre[i])
    requires forall i :: 0 <= i < |post| ==> IsSeparator(post[i])
    requires core != [] && !IsWhiteSpace(core[0]) && !IsWhiteSpace(core[|core| - 1])
    ensures var s := pre + core + post; s != [] && !IsWhiteSpace(s[0]) && !IsWhiteSpace(s[|s| - 1])
  {
    var s := pre + core + post;
    if pre != [] { assert s[0] == pre[0]; } else { assert s[0] == core[0]; }
    if post != [] { assert s[|s| - 1] == post[|post| - 1]; } else { assert s[|s| - 1] == core[|core| - 1]; }
  }

  /**
   * Leading and trailing separators of either kind are dropped and the
   * inner `/` become `\`.
   */
  lemma NormalizeStrips(pre: string, core: string, post: string)
    requires forall i :: 0 <= i < |pre| ==> IsSeparator(pre[i])
    requires forall i :: 0 <= i < |post| ==> IsSeparator(post[i])
    requires core != [] && !IsSeparator(core[0]) && !IsSeparator(core[|core| - 1])
    requires !IsWhiteSpace(core[0]) && !IsWhiteSpace(core[|core| - 1])
    ensures NormalizeRelativePath(Some(pre + core + post)) == Replace(core, '/', '\\')
  {
    var s := pre + core + post;
    SeparatedEnds(pre, core, post);
    NormalizeUntrimmed(s);
    ReplaceThenTrim(pre, core, post);
  }

  /** Separator-only relative paths from the source's unit tests. */
  lemma NormalizeSeparatorExamples()
    ensures NormalizeRelativePath(Some("")) == ""
    ensures NormalizeRelativePath(Some("\\")) == ""
    ensures NormalizeRelativePath(Some("\\\\")) == ""
  {
    NormalizeAllSeparators("");
    NormalizeAllSeparators("\\");
    NormalizeAllSeparators("\\\\");
  }

  /** A path with no separator or whitespace at its ends only has its `/` turned into `\`. */
  lemma NormalizeClean(core: string)
    requires core != [] && !IsSeparator(core[0]) && !IsSeparator(core[|core| - 1])
    requires !IsWhiteSpace(core[0]) && !IsWhiteSpace(core[|core| - 1])
    ensures NormalizeRelativePath(Some(core)) == Replace(core, '/', '\\')
  {
    assert "" + core + "" == core;
    NormalizeStrips("", core, "");
  }

  /** `folder` from the source's unit tests. */
  lemma NormalizeFolder()
    ensures NormalizeRelativePath(Some("folder")) == "folder"
  {
    NormalizeName("folder");
  }

  /** A name with no separator and no whitespace at its ends is its own normal form. */
  lemma NormalizeName(name: string)
    requires name != [] && '/' !in name && '\\' !in name
    requires !IsWhiteSpace(name[0]) && !IsWhiteSpace(name[|name| - 1])
    ensures NormalizeRelativePath(Some(name)) == name
  {
    NormalizeClean(name);
    ReplaceAbsent(name, '/', '\\');
  }

  /** `folder\` from the source's unit tests. */
  lemma NormalizeFolderBackslash()
    ensures NormalizeRelativePath(Some("folder\\")) == "folder"
  {
    assert "" + "folder" + "\\" == "folder\\";
    NormalizeStrips("", "folder", "\\");
    ReplaceAbsent("folder", '/', '\\');
  }

  /** Two names free of `x` joined by `x` come out joined by `y`. */
  lemma ReplaceJoined(a: string, b: string, x: char, y: char)
    requires x !in a && x !in b
    ensures Replace(a + [x] + b, x, y) == a + [y] + b
  {
    ReplaceAppend(a + [x], b, x, y);
    ReplaceAppend(a, [x], x, y);
    ReplaceAbsent(a, x, y);
    ReplaceAbsent(b, x, y);
    ReplaceOne(x, y);
  }

  lemma ReplaceOne(x: char, y: char)
    ensures Replace([x], x, y) == [y]
  {
    assert [x][1..] == [];
  }

  lemma ReplaceFolderSub()
    ensures Replace("folder/sub", '/', '\\') == "folder\\sub"
  {
    ReplaceJoined("folder", "sub", '/', '\\');
    assert "folder" + ['/'] + "sub" == "folder/sub";
    assert "folder" + ['\\'] + "sub" == "folder\\sub";
  }

  /** `/folder/sub/` from the source's unit tests. */
  lemma NormalizeSlashedSubfolder()
    ensures NormalizeRelativePath(Some("/folder/sub/")) == "folder\\sub"
  {
    assert "/" + "folder/sub" + "/" == "/folder/sub/";
    NormalizeStrips("/", "folder/sub", "/");
    ReplaceFolderSub();
  }

  /** `folder/sub` from the source's unit tests. */
  lemma NormalizeSubfolder()
    ensures NormalizeRelativePath(Some("folder/sub")) == "folder\\sub"
  {
    NormalizeClean("folder/sub");
    ReplaceFolderSub();
  }

  // ---------------------------------------------------------------- BuildStableLocator

  /** `BuildStableLocator(host, share, relativePath)`: `smb://host/share[/rel]` with `/` separators. */
  function BuildStableLocator(host: string, share: string, relativePath: string): (r: string)
    ensures var rel := NormalizeRelativePath(Some(relativePath));
      r == "smb://" + host + "/" + share + (if rel == "" then "" else "/" + Replace(rel, '\\', '/'))
    ensures var tail := r[|"smb://" + host + "/" + share|..]; '\\' !in tail
  {
    var rel := Replace(NormalizeRelativePath(Some(relativePath)), '\\', '/');
    ReplaceRemoves(NormalizeRelativePath(Some(relativePath)), '\\', '/');
    var path := if rel == "" then share else share + "/" + rel;
    var r := "smb://" + host + "/" + path;
    assert r[|"smb://" + host + "/" + share|..] == (if rel == "" then "" else "/" + rel);
    r
  }

  /** A relative path `a\b` of two plain names gives the locator `smb://host/share/a/b`. */
  lemma LocatorOfTwoNames(host: string, share: string, a: string, b: string)
    requires IsUriComponent(a, "/\\") && IsUriComponent(b, "/\\") && EndsNonBlank(a) && EndsNonBlank(b)
    ensures BuildStableLocator(host, share, a + ['\\'] + b) == "smb://" + host + "/" + share + "/" + a + "/" + b
  {
    var rel := a + ['\\'] + b;
    assert rel[0] == a[0] && rel[|rel| - 1] == b[|b| - 1];
    NormalizeClean(rel);
    assert '/' !in rel;
    ReplaceAbsent(rel, '/', '\\');
    ReplaceJoined(a, b, '\\', '/');
    SlashIsChar();
    JoinedTail("smb://" + host + "/" + share, a, b, '/');
  }

  lemma SlashIsChar()
    ensures "/" == ['/']
  {
  }

  /** A prefix followed by `[c] + (a + [c] + b)`, spelled out left to right. */
  lemma JoinedTail(pre: string, a: string, b: string, c: char)
    ensures pre + ([c] + (a + [c] + b)) == pre + [c] + a + [c] + b
  {
  }

  lemma LocatorSpellings()
    ensures "folder\\file.mp4" == "folder" + ['\\'] + "file.mp4"
    ensures "smb://server/share/folder/file.mp4" == "smb://" + "server" + "/" + "share" + "/" + "folder" + "/" + "file.mp4"
  {
  }

  /** The locator of the source's unit test. */
  lemma LocatorExample()
    ensures BuildStableLocator("server", "share", "folder\\file.mp4") == "smb://server/share/folder/file.mp4"
  {
    LocatorSpellings();
    LocatorOfTwoNames("server", "share", "folder", "file.mp4");
  }

  /**
   * Round trip: a locator built from a plain host and a plain share parses
   * to that share and the lower-cased host. This reader keeps `.` and `..`
   * segments as written, where `System.Uri` folds them, so the round trip
   * carries over to `System.Uri` for relative paths without such segments.
   */
  lemma LocatorRoundTrip(host: string, share: string, relativePath: string)
    requires IsPlainHost(host) && IsPlainShare(share)
    ensures TryParseRoot(Some(BuildStableLocator(host, share, relativePath))) == RootParse(true, ToLower(host), share)
  {
    var n := NormalizeRelativePath(Some(relativePath));
    var tail := if n == "" then "" else "/" + Replace(n, '\\', '/');
    assert "smb://" == "smb" + "://";
    assert BuildStableLocator(host, share, relativePath) == "smb" + "://" + host + "/" + share + tail;
    SmbUriRootParses("smb", host, share, tail);
  }
}
