/**
 * The desktop player's loopback HTTP server (`LocalHttpFileProxy`). It serves
 * the one bound file at `/video` and honours a `Range: bytes=start-end` request
 * header. It copies the requested span to the response in chunks of at most
 * 64 KiB.
 */
module LocalHttpProxy {
  import opened Wrappers
  import opened Strings
  import opened Ints
  import Seqs

  /** The range of C#'s `long`. */
  const LongMin: int := -0x8000_0000_0000_0000
  const LongMax: int := 0x7fff_ffff_ffff_ffff

  /** The copy buffer of `CopyFixedLength`, `64 * 1024` bytes. */
  const BufferSize: nat := 64 * 1024

  /** The only path the server answers. */
  const VideoPath := "/video"

  /** The prefix of the range headers the server honours. */
  const BytesPrefix := "bytes="

  function Min(a: int, b: int): int {
    if a <= b then a else b
  }

  // ---------------------------------------------------------------- long.TryParse

  /** The white space `NumberStyles.Integer` allows around a number: U+0009..U+000D and U+0020. */
  predicate IsNumberWhite(c: char) {
    ('\t' <= c <= '\r') || c == ' '
  }

  predicate AllDigits(s: string) {
    forall i :: 0 <= i < |s| ==> IsAsciiDigit(s[i])
  }

  /** A non-empty run of ASCII digits and its value. */
  function Magnitude(d: string): (r: Option<nat>)
    ensures r.Some? <==> d != [] && AllDigits(d)
  {
    if d != [] && AllDigits(d) then Some(DigitsValue(d)) else None
  }

  /**
   * `long.TryParse(s, NumberStyles.Integer, CultureInfo.InvariantCulture, out v)`.
   * The number may be surrounded by white space and may have one leading sign.
   * It must have at least one ASCII digit and must fit in a `long`.
   */
  function ParseLong(s: string): (r: Option<int>)
    ensures r.Some? ==> LongMin <= r.value <= LongMax
    ensures r.Some? && '-' !in s ==> r.value >= 0
  {
    var t := TrimBy(s, IsNumberWhite);
    TrimByAbsent(s, IsNumberWhite, '-');
    ParseSigned(t)
  }

  /** The part of `ParseLong` after the white space is trimmed: an optional sign, then digits. */
  function ParseSigned(t: string): (r: Option<int>)
    ensures r.Some? ==> LongMin <= r.value <= LongMax
    ensures r.Some? && '-' !in t ==> r.value >= 0
  {
    var negative := t != [] && t[0] == '-';
    var digits := if t != [] && (t[0] == '-' || t[0] == '+') then t[1..] else t;
    match Magnitude(digits)
    case None => None
    case Some(m) =>
      var v: int := if negative then -(m as int) else m;
      if LongMin <= v <= LongMax then Some(v) else None
  }

  /** The decimal digits `int.ToString()` writes for a `long`, padded with white space, parse back to the number. */
  lemma ParseLongPadded(pre: string, n: nat, post: string)
    requires n <= LongMax
    requires forall i :: 0 <= i < |pre| ==> IsNumberWhite(pre[i])
    requires forall i :: 0 <= i < |post| ==> IsNumberWhite(post[i])
    ensures ParseLong(pre + NatToString(n) + post) == Some(n)
  {
    var d := NatToString(n);
    assert IsAsciiDigit(d[0]) && IsAsciiDigit(d[|d| - 1]);
    TrimByCore(pre, d, post, IsNumberWhite);
    NatToStringValue(n);
  }

  lemma ParseLongDigits(n: nat)
    requires n <= LongMax
    ensures ParseLong(NatToString(n)) == Some(n)
  {
    ParseLongPadded([], n, []);
    assert [] + NatToString(n) + [] == NatToString(n);
  }

  /** A minus sign in front of the digits negates them, down to the least `long`. */
  lemma ParseLongNegative(n: nat)
    requires n <= -LongMin
    ensures ParseLong("-" + NatToString(n)) == Some(-(n as int))
  {
    NatToStringValue(n);
    NegativeDigits(NatToString(n), n);
  }

  lemma NegativeDigits(d: string, m: nat)
    requires d != [] && AllDigits(d) && DigitsValue(d) == m && m <= -LongMin
    ensures ParseLong("-" + d) == Some(-(m as int))
  {
    var s := "-" + d;
    assert IsAsciiDigit(d[|d| - 1]) && s[|s| - 1] == d[|d| - 1];
    TrimByNoop(s, IsNumberWhite);
    assert s[1..] == d;
  }

  // ---------------------------------------------------------------- ParseRange

  /**
   * `ParseRange(header, total)`: the first and last byte a `bytes=` header asks
   * for. The text after `bytes=` is trimmed and split at its first '-'. With no
   * '-', or when the first part is not a number, the whole file is meant. A
   * missing or unreadable last part means "to the end". A last part past the
   * end of the file is cut to its last byte. The first byte is never negative,
   * since its part has no '-'. Both bytes are `long` values or come from `total`.
   */
  function ParseRange(header: string, total: int): (r: (int, int))
    requires |header| >= |BytesPrefix|
    ensures 0 <= r.0 <= LongMax
    ensures r.1 <= total - 1
    ensures LongMin <= r.1 || r.1 == total - 1
  {
    SpecRange(Trim(header[|BytesPrefix|..]), total)
  }

  /** `ParseRange` after the trim: the split at the first '-'. */
  function SpecRange(spec: string, total: int): (r: (int, int))
    ensures 0 <= r.0 <= LongMax
    ensures r.1 <= total - 1
    ensures LongMin <= r.1 || r.1 == total - 1
  {
    match SplitFirst(spec, '-')
    case None => (0, total - 1)
    case Some((first, last)) => PartsRange(first, last, total)
  }

  /** `ParseRange` after the split: the two parts read as numbers. */
  function PartsRange(first: string, last: string, total: int): (r: (int, int))
    ensures '-' !in first ==> r.0 >= 0
    ensures r.0 <= LongMax
    ensures r.1 <= total - 1
    ensures LongMin <= r.1 || r.1 == total - 1
  {
    match ParseLong(first)
    case None => (0, total - 1)
    case Some(start) =>
      match ParseLong(last)
      case Some(end) => (start, Min(end, total - 1))
      case None => (start, total - 1)
  }

  /** Trimming leaves a spec alone when its ends are not white space. */
  lemma HeaderSpec(header: string, spec: string, total: int)
    requires header == BytesPrefix + spec
    requires spec != [] && !IsWhiteSpace(spec[0]) && !IsWhiteSpace(spec[|spec| - 1])
    ensures ParseRange(header, total) == SpecRange(spec, total)
  {
    assert header[|BytesPrefix|..] == spec;
    TrimByNoop(spec, IsWhiteSpace);
  }

  /** Splitting `a + "-" + b` at its first '-' gives `a` and `b` when `a` is digits. */
  lemma SplitAtDash(a: string, b: string)
    requires AllDigits(a)
    ensures SplitFirst(a + "-" + b, '-') == Some((a, b))
  {
    var s := a + "-" + b;
    assert '-' !in a by {
      forall i | 0 <= i < |a| ensures a[i] != '-' {
        assert IsAsciiDigit(a[i]);
      }
    }
    IndexOfCharAfter(a, b, '-');
    assert s[..|a|] == a && s[|a| + 1..] == b;
  }

  /** A header `bytes=x-y` with digit strings `x` and `y` is read part by part. */
  lemma DigitsRange(x: string, y: string, total: int)
    requires x != [] && AllDigits(x) && y != [] && AllDigits(y)
    ensures ParseRange(BytesPrefix + x + "-" + y, total) == PartsRange(x, y, total)
  {
    var spec := x + "-" + y;
    assert IsAsciiDigit(x[0]) && IsAsciiDigit(y[|y| - 1]);
    assert spec[0] == x[0] && spec[|spec| - 1] == y[|y| - 1];
    assert BytesPrefix + x + "-" + y == BytesPrefix + spec;
    HeaderSpec(BytesPrefix + spec, spec, total);
    SplitAtDash(x, y);
  }

  /** A header `bytes=a-b` asks for bytes `a` to `b`, with `b` cut to the last byte of the file. */
  lemma ParseRangeBoth(a: nat, b: nat, total: int)
    requires a <= LongMax && b <= LongMax
    ensures ParseRange(BytesPrefix + NatToString(a) + "-" + NatToString(b), total) == (a, Min(b, total - 1))
  {
    DigitsRange(NatToString(a), NatToString(b), total);
    ParseLongDigits(a);
    ParseLongDigits(b);
  }

  /** A header `bytes=x--d` with digit strings `x` and `d` is read part by part. */
  lemma NegativeRange(x: string, d: string, total: int)
    requires x != [] && AllDigits(x) && d != [] && AllDigits(d)
    ensures ParseRange(BytesPrefix + x + "-" + ("-" + d), total) == PartsRange(x, "-" + d, total)
  {
    var spec := x + "-" + ("-" + d);
    assert IsAsciiDigit(x[0]) && spec[0] == x[0];
    assert IsAsciiDigit(d[|d| - 1]) && spec[|spec| - 1] == d[|d| - 1];
    assert BytesPrefix + x + "-" + ("-" + d) == BytesPrefix + spec;
    HeaderSpec(BytesPrefix + spec, spec, total);
    SplitAtDash(x, "-" + d);
  }

  /** A header `bytes=a--m` reads its last part as the negative number `-m`. */
  lemma ParseRangeNegativeEnd(a: nat, m: nat, total: int)
    requires a <= LongMax && m <= -LongMin
    ensures ParseRange(BytesPrefix + NatToString(a) + "-" + ("-" + NatToString(m)), total) == (a, Min(-(m as int), total - 1))
  {
    var x, d := NatToString(a), NatToString(m);
    NegativeRange(x, d, total);
    ParseLongDigits(a);
    ParseLongNegative(m);
    assert PartsRange(x, "-" + d, total) == (a, Min(-(m as int), total - 1));
  }

  /** A header `bytes=a-` asks for everything from byte `a` on. */
  lemma ParseRangeOpen(a: nat, total: int)
    requires a <= LongMax
    ensures ParseRange(BytesPrefix + NatToString(a) + "-", total) == (a, total - 1)
  {
    var x := NatToString(a);
    var spec := x + "-";
    assert IsAsciiDigit(x[0]);
    assert spec[0] == x[0];
    assert BytesPrefix + x + "-" == BytesPrefix + spec;
    HeaderSpec(BytesPrefix + spec, spec, total);
    SplitAtDash(x, "");
    assert x + "-" + "" == spec;
    ParseLongDigits(a);
  }

  /** A suffix range `bytes=-n` (the last `n` bytes in HTTP) is read as the whole file. */
  lemma ParseRangeSuffix(n: nat, total: int)
    ensures ParseRange(BytesPrefix + "-" + NatToString(n), total) == (0, total - 1)
  {
    var y := NatToString(n);
    var spec := "-" + y;
    assert IsAsciiDigit(y[|y| - 1]) && spec[|spec| - 1] == y[|y| - 1];
    assert BytesPrefix + "-" + y == BytesPrefix + spec;
    HeaderSpec(BytesPrefix + spec, spec, total);
    SplitAtDash("", y);
    assert "" + "-" + y == spec;
  }

  /** A header without a '-' after `bytes=` is read as the whole file. */
  lemma ParseRangeNoDash(header: string, total: int)
    requires |header| >= |BytesPrefix| && '-' !in header
    ensures ParseRange(header, total) == (0, total - 1)
  {
    var rest := header[|BytesPrefix|..];
    assert '-' !in rest by {
      forall i | 0 <= i < |rest| ensures rest[i] != '-' {
        assert rest[i] == header[|BytesPrefix| + i];
      }
    }
    TrimByAbsent(rest, IsWhiteSpace, '-');
  }

  // ---------------------------------------------------------------- Handle

  /** The outcome of one request. */
  datatype Response =
    | NotFound                                     // 404
    | RangeNotSatisfiable                          // 416
    | Partial(start: int, end: int, total: nat)    // 206 with bytes start..end of total
    | Whole(total: nat)                            // 200 with the whole file
    | Aborted(start: int, end: int, total: nat)    // 206 and Content-Range set, then ContentLength64 refused end - start + 1
    | Wrapped(start: int, end: int, total: nat, length: int)  // 206 whose length end - start + 1 wrapped around to the positive long `length`

  /** The path test of `Handle`: a null path, or any other path, is not `/video`. */
  predicate IsVideoPath(absolutePath: Option<string>) {
    absolutePath.Some? && EqualsIgnoreCase(absolutePath.value, VideoPath)
  }

  /** The range test of `Handle`: a header that is present, not blank, and starts with `bytes=` in any case. */
  predicate IsRangeRequest(range: Option<string>) {
    range.Some? && !IsBlank(range.value) && StartsWithIgnoreCase(range.value, BytesPrefix)
  }

  /**
   * `Handle`: how the server answers a request for `absolutePath` with the
   * `Range` header `range`. `file` is the length of the bound file, or none
   * when no file is bound or the bound file does not exist. The length
   * `end - start + 1` is unchecked `long` arithmetic. A range whose last byte
   * comes more than one byte before its first byte gives a negative length.
   * The `ContentLength64` setter throws on it, and `ListenLoop` then closes
   * the response. A last byte so far below the first that the difference is
   * less than the least `long` wraps around to a positive length instead,
   * which is announced and streamed from `start`.
   */
  function Respond(absolutePath: Option<string>, file: Option<nat>, range: Option<string>): (r: Response)
    ensures r == NotFound <==> !IsVideoPath(absolutePath) || file.None?
    ensures r.Whole? <==> IsVideoPath(absolutePath) && file.Some? && !IsRangeRequest(range)
    ensures r.Whole? ==> file == Some(r.total)
    ensures r.Partial? ==> file == Some(r.total) && IsRangeRequest(range)
    ensures r.Partial? ==> 0 <= r.start < r.total && r.start - 1 <= r.end < r.total
    ensures r.Aborted? ==> file == Some(r.total) && IsRangeRequest(range) && 0 <= r.start < r.total
    ensures r.Aborted? && r.total <= LongMax ==> r.end < r.start - 1
    ensures r.Wrapped? ==> file == Some(r.total) && IsRangeRequest(range) && 0 <= r.start < r.total
    ensures r.Wrapped? ==> r.end - r.start + 1 < LongMin && r.length == r.end - r.start + 1 + 0x1_0000_0000_0000_0000 > 0
    ensures r.Wrapped? ==> LongMin <= r.end
    ensures r == RangeNotSatisfiable ==>
      file.Some? && IsRangeRequest(range) && ParseRange(range.value, file.value).0 >= file.value
  {
    if !IsVideoPath(absolutePath) || file.None? then NotFound
    else
      var total := file.value;
      if IsRangeRequest(range) then
        var span := ParseRange(range.value, total);
        SpanAnswer(span.0, span.1, total)
      else Whole(total)
  }

  /** `Handle` once the range is read: 416, an abort, a wrapped length, or a partial answer. */
  function SpanAnswer(start: int, end: int, total: nat): (r: Response)
    requires 0 <= start <= LongMax && end <= total - 1
    requires LongMin <= end || end == total - 1
    ensures r == RangeNotSatisfiable <==> start >= total
    ensures r.RangeNotSatisfiable? || r.Partial? || r.Aborted? || r.Wrapped?
    ensures !r.RangeNotSatisfiable? ==> r.start == start && r.end == end && r.total == total && start < total
    ensures r.Partial? ==> r.start - 1 <= r.end
    ensures r.Aborted? ==> Wrap64(r.end - r.start + 1) < 0 && (r.total <= LongMax ==> r.end < r.start - 1)
    ensures r.Wrapped? ==> r.end - r.start + 1 < LongMin && r.length == Wrap64(r.end - r.start + 1)
    ensures r.Wrapped? ==> r.length == r.end - r.start + 1 + 0x1_0000_0000_0000_0000 > 0
  {
    var length := end - start + 1;
    LengthWraps(length);
    if start >= total then RangeNotSatisfiable
    else if Wrap64(length) < 0 then Aborted(start, end, total)
    else if length < 0 then Wrapped(start, end, total, Wrap64(length))
    else Partial(start, end, total)
  }

  /** How `end - start + 1` wraps as a `long`: not at all when it fits, once when it lies below. */
  lemma LengthWraps(x: int)
    ensures LongMin <= x <= LongMax ==> Wrap64(x) == x
    ensures LongMin - 0x1_0000_0000_0000_0000 <= x < LongMin ==> Wrap64(x) == x + 0x1_0000_0000_0000_0000
  {
    if LongMin <= x <= LongMax {
      Wrap64InRange(x);
    } else if LongMin - 0x1_0000_0000_0000_0000 <= x < LongMin {
      Wrap64Below(x);
    }
  }

  /** The status code sent; for `Aborted` it is the 206 already set when the length was refused. */
  function StatusCode(r: Response): int {
    match r
    case NotFound => 404
    case RangeNotSatisfiable => 416
    case Partial(_, _, _) => 206
    case Whole(_) => 200
    case Aborted(_, _, _) => 206
    case Wrapped(_, _, _, _) => 206
  }

  /** The `Content-Length` header: the span's length as a `long`, or the file's length. */
  function ContentLength(r: Response): Option<int> {
    match r
    case Partial(start, end, _) => Some(end - start + 1)
    case Wrapped(_, _, _, length) => Some(length)
    case Whole(total) => Some(total)
    case _ => None
  }

  /**
   * The `Content-Range` header, `bytes {start}-{end}/{total}`: set with the
   * 206 status, so an aborted answer carries it too.
   */
  function ContentRange(r: Response): Option<string> {
    if r.Partial? || r.Aborted? || r.Wrapped? then
      Some("bytes " + IntToString(r.start) + "-" + IntToString(r.end) + "/" + IntToString(r.total))
    else None
  }

  /** The `Accept-Ranges` and `Content-Type` headers, set once the file is found. */
  function FileHeaders(r: Response): seq<(string, string)> {
    if r == NotFound then [] else [("Accept-Ranges", "bytes"), ("Content-Type", "video/mp4")]
  }

  /**
   * How `Handle` answers the range `bytes=a-b` for the bound `/video` file.
   * A first byte inside the file gives a partial answer from `a` to `b`, with
   * `b` cut to the file's end. A first byte past the end gives 416. A last
   * byte before `a - 1` aborts. The length never wraps here, as both bytes
   * and the file's length are `long` values that are not negative.
   */
  lemma RespondRange(a: nat, b: nat, total: nat)
    requires a <= LongMax && b <= LongMax && total <= LongMax
    ensures var r := Respond(Some(VideoPath), Some(total), Some(BytesPrefix + NatToString(a) + "-" + NatToString(b)));
      if a >= total then r == RangeNotSatisfiable
      else if Min(b, total - 1) < a - 1 then r == Aborted(a, Min(b, total - 1), total)
      else r == Partial(a, Min(b, total - 1), total)
  {
    var header := BytesPrefix + NatToString(a) + "-" + NatToString(b);
    RangeRequestOf(header);
    ParseRangeBoth(a, b, total);
    VideoPathMatches();
    RespondHeader(Some(VideoPath), total, header);
    LengthWraps(Min(b, total - 1) - a + 1);
  }

  lemma VideoPathMatches()
    ensures IsVideoPath(Some(VideoPath))
  {
  }

  /** For `/video` and a bound file, a range request is answered from what `ParseRange` reads. */
  lemma RespondHeader(absolutePath: Option<string>, total: nat, header: string)
    requires IsVideoPath(absolutePath) && IsRangeRequest(Some(header))
    ensures var (start, end) := ParseRange(header, total);
      Respond(absolutePath, Some(total), Some(header)) ==
        if start >= total then RangeNotSatisfiable
        else if Wrap64(end - start + 1) < 0 then Aborted(start, end, total)
        else if end - start + 1 < 0 then Wrapped(start, end, total, Wrap64(end - start + 1))
        else Partial(start, end, total)
  {
  }

  /** A header that starts with `bytes=` is a range request. */
  lemma RangeRequestOf(header: string)
    requires |header| >= |BytesPrefix| && header[..|BytesPrefix|] == BytesPrefix
    ensures IsRangeRequest(Some(header))
  {
    assert header[0] == 'b' && !IsWhiteSpace(header[0]);
    assert EqualsIgnoreCase(header[..|BytesPrefix|], BytesPrefix);
  }

  lemma ReversedRangeAborts()
    ensures Respond(Some(VideoPath), Some(100), Some(BytesPrefix + NatToString(10) + "-" + NatToString(5))) == Aborted(10, 5, 100)
  {
    RespondRange(10, 5, 100);
  }

  /**
   * `bytes=2--9223372036854775808` on a 100-byte file: the last byte is the
   * least `long`, so `end - start + 1` is one below it and wraps around to the
   * greatest `long`, which is announced as the length of a 206 answer.
   */
  lemma WrappedRangeExample()
    ensures Respond(Some(VideoPath), Some(100), Some(BytesPrefix + NatToString(2) + "-" + ("-" + NatToString(-LongMin))))
      == Wrapped(2, LongMin, 100, LongMax)
  {
    var header := BytesPrefix + NatToString(2) + "-" + ("-" + NatToString(-LongMin));
    RangeRequestOf(header);
    ParseRangeNegativeEnd(2, -LongMin, 100);
    VideoPathMatches();
    RespondHeader(Some(VideoPath), 100, header);
    LengthWraps(LongMin - 1);
  }

  /** An empty file satisfies no range request at all. */
  lemma EmptyFileRange(absolutePath: Option<string>, range: Option<string>)
    requires IsVideoPath(absolutePath) && IsRangeRequest(range)
    ensures Respond(absolutePath, Some(0), range) == RangeNotSatisfiable
  {
  }

  // ---------------------------------------------------------------- streams

  /** A `FileStream` opened for reading over the bytes `data`, at byte `position`. */
  class FileReader {
    const data: seq<Byte>
    var position: nat

    constructor(data: seq<Byte>)
      ensures this.data == data && position == 0
    {
      this.data := data;
      position := 0;
    }

    /** The bytes a read from here on can return. */
    function Remaining(): (r: seq<Byte>)
      reads this`position
      ensures position <= |data| ==> r == data[position..]
      ensures position > |data| ==> r == []
    {
      if position <= |data| then data[position..] else []
    }

    /** `Seek(offset, SeekOrigin.Begin)`. */
    method Seek(offset: nat)
      modifies this`position
      ensures position == offset
    {
      position := offset;
    }

    /** `Read(buffer, 0, count)`: a file read returns `count` bytes, or what is left. */
    method Read(buffer: array<Byte>, count: nat) returns (n: nat)
      requires count <= buffer.Length
      modifies buffer, this`position
      ensures n == Min(count, |old(Remaining())|)
      ensures buffer[..n] == old(Remaining())[..n]
      ensures position == old(position) + n
    {
      var rest := Remaining();
      n := Min(count, |rest|);
      for i := 0 to n
        modifies buffer
        invariant buffer[..i] == rest[..i]
      {
        buffer[i] := rest[i];
      }
      position := position + n;
    }
  }

  /** The response's `OutputStream`: what was written, and how long each write was. */
  class ResponseBody {
    var written: seq<Byte>
    var writes: seq<nat>

    constructor()
      ensures written == [] && writes == []
    {
      written := [];
      writes := [];
    }

    /** `Write(buffer, 0, count)`. */
    method Write(buffer: array<Byte>, count: nat)
      requires count <= buffer.Length
      modifies this
      ensures written == old(written) + buffer[..count]
      ensures writes == old(writes) + [count]
    {
      written := written + buffer[..count];
      writes := writes + [count];
    }
  }

  /** How many bytes `CopyFixedLength` moves: `length`, or what the input has left if less. */
  function Copied(length: int, available: nat): (n: nat)
    ensures n <= available
    ensures length > 0 && length <= available ==> n == length
    ensures length <= 0 ==> n == 0
  {
    if length <= 0 then 0 else Min(length, available)
  }

  /**
   * `CopyFixedLength(input, output, length)`. It copies `length` bytes, or up to
   * the end of the input, in writes of at least one and at most `BufferSize`
   * bytes.
   */
  method CopyFixedLength(input: FileReader, output: ResponseBody, length: int)
    modifies input`position, output
    ensures output.written ==
      old(output.written) + old(input.Remaining())[..Copied(length, |old(input.Remaining())|)]
    ensures input.position == old(input.position) + Copied(length, |old(input.Remaining())|)
    ensures |output.writes| >= |old(output.writes)|
    ensures output.writes[..|old(output.writes)|] == old(output.writes)
    ensures forall k :: |old(output.writes)| <= k < |output.writes| ==> 0 < output.writes[k] <= BufferSize
  {
    var buffer := new Byte[BufferSize];
    ghost var rest := input.Remaining();
    ghost var position0 := input.position;
    ghost var written0 := output.written;
    ghost var writes0 := output.writes;
    ghost var copied: nat := 0;
    var remaining := length;
    while remaining > 0
      invariant remaining == length - copied
      invariant copied <= |rest|
      invariant copied > 0 ==> remaining >= 0
      invariant input.position == position0 + copied
      invariant input.Remaining() == rest[copied..]
      invariant output.written == written0 + rest[..copied]
      invariant |output.writes| >= |writes0| && output.writes[..|writes0|] == writes0
      invariant forall k :: |writes0| <= k < |output.writes| ==> 0 < output.writes[k] <= BufferSize
    {
      var read := input.Read(buffer, Min(BufferSize, remaining));
      label step:
      if read <= 0 {
        break;
      }
      Seqs.DropThen(rest, copied, read);
      ghost var chunk := buffer[..read];
      output.Write(buffer, read);
      Seqs.PrefixKept(writes0, old@step(output.writes), read);
      Seqs.Assoc(written0, rest[..copied], chunk);
      Seqs.SliceGrow(rest, copied, copied + read);
      remaining := remaining - read;
      copied := copied + read;
    }
  }

  /** `Stream.CopyToAsync`: everything the input has left. */
  method CopyToEnd(input: FileReader, output: ResponseBody)
    modifies input`position, output
    ensures output.written == old(output.written) + old(input.Remaining())
  {
    var rest := input.Remaining();
    var buffer := new Byte[|rest|];
    var n := input.Read(buffer, |rest|);
    output.Write(buffer, n);
  }

  function LengthOf(file: Option<seq<Byte>>): Option<nat> {
    if file.None? then None else Some(|file.value|)
  }

  /**
   * The body of a 206 answer: the file from `start`, `length` bytes long, or
   * up to the end of the file when fewer are left.
   */
  method ServeFrom(file: seq<Byte>, start: nat, length: int) returns (body: seq<Byte>)
    requires start < |file|
    ensures body == file[start..start + Copied(length, |file| - start)]
  {
    var input := new FileReader(file);
    input.Seek(start);
    var output := new ResponseBody();
    CopyFixedLength(input, output, length);
    body := output.written;
    assert file[start..][..Copied(length, |file| - start)] == file[start..start + Copied(length, |file| - start)];
  }

  /** The body of a whole answer: the file, sent by `CopyToAsync`. */
  method ServeWhole(file: seq<Byte>) returns (body: seq<Byte>)
    ensures body == file
  {
    var input := new FileReader(file);
    var output := new ResponseBody();
    CopyToEnd(input, output);
    body := output.written;
    assert file[0..] == file;
  }

  /** A response whose byte span lies inside `file`. */
  predicate Fits(r: Response, file: Option<seq<Byte>>) {
    (r.Partial? ==> file.Some? && 0 <= r.start < |file.value| && r.start - 1 <= r.end < |file.value|) &&
    (r.Wrapped? ==> file.Some? && 0 <= r.start < |file.value| && r.total == |file.value| &&
                    LongMin <= r.end && r.length == r.end - r.start + 1 + 0x1_0000_0000_0000_0000) &&
    (r.Whole? ==> file.Some? && r.total == |file.value|)
  }

  /**
   * The headers of each answer: `Accept-Ranges` and `Content-Type` exactly
   * when the file is found; `Content-Range` exactly with status 206, that is
   * on a partial answer, on one aborted by a negative length and on one whose
   * length wrapped around; a `Content-Length` of the file's length with
   * status 200, of the span's length on a partial answer, and of that length
   * plus 2^64 when it wrapped; no length with 404, 416 or an abort.
   */
  lemma RespondHeaders(absolutePath: Option<string>, file: Option<nat>, range: Option<string>)
    ensures var r := Respond(absolutePath, file, range);
      && (StatusCode(r) == 404 <==> !IsVideoPath(absolutePath) || file.None?)
      && (FileHeaders(r) == [] <==> StatusCode(r) == 404)
      && (StatusCode(r) == 200 <==> IsVideoPath(absolutePath) && file.Some? && !IsRangeRequest(range))
      && (StatusCode(r) == 200 ==> ContentLength(r) == file && ContentRange(r).None?)
      && (ContentRange(r).Some? <==> StatusCode(r) == 206)
      && (StatusCode(r) == 206 <==> IsVideoPath(absolutePath) && file.Some? && IsRangeRequest(range)
                                    && ParseRange(range.value, file.value).0 < file.value)
      && (r.Partial? ==> ContentLength(r) == Some(r.end - r.start + 1))
      && (r.Aborted? ==> ContentLength(r).None?)
      && (StatusCode(r) == 416 <==> r == RangeNotSatisfiable)
      && (StatusCode(r) == 416 ==> ContentLength(r).None?)
  {
    var r := Respond(absolutePath, file, range);
    HeadersOf(r);
  }

  /** The header values of one answer, case by case. */
  lemma HeadersOf(r: Response)
    ensures StatusCode(r) == 404 <==> r == NotFound
    ensures FileHeaders(r) == [] <==> r == NotFound
    ensures StatusCode(r) == 200 <==> r.Whole?
    ensures r.Whole? ==> ContentLength(r) == Some(r.total) && ContentRange(r).None?
    ensures ContentRange(r).Some? <==> StatusCode(r) == 206
    ensures StatusCode(r) == 206 <==> r.Partial? || r.Aborted? || r.Wrapped?
    ensures r.Partial? ==> ContentLength(r) == Some(r.end - r.start + 1)
    ensures r.Aborted? ==> ContentLength(r).None?
    ensures r.Wrapped? ==> ContentLength(r) == Some(r.length)
    ensures StatusCode(r) == 416 <==> r == RangeNotSatisfiable
    ensures r == RangeNotSatisfiable ==> ContentLength(r).None?
  {
  }

  /** What `Respond` decides fits the file it was given. */
  lemma RespondFits(absolutePath: Option<string>, file: Option<seq<Byte>>, range: Option<string>)
    ensures Fits(Respond(absolutePath, LengthOf(file), range), file)
  {
  }

  /**
   * The body sent with `r`: the span of a partial answer, the file for a whole
   * one, and as much of the announced length as the file has left from `start`
   * when the length wrapped; else nothing.
   */
  method Answer(r: Response, file: Option<seq<Byte>>) returns (body: seq<Byte>)
    requires Fits(r, file)
    ensures r.Partial? ==> body == file.value[r.start..r.end + 1]
    ensures r.Whole? ==> body == file.value
    ensures r.Wrapped? ==> body == file.value[r.start..r.start + Copied(r.length, |file.value| - r.start)]
    ensures r.Wrapped? && |file.value| <= LongMax ==> body == file.value[r.start..] && |body| < ContentLength(r).value
    ensures r.Partial? || r.Whole? ==> |body| == ContentLength(r).value
    ensures ContentLength(r).None? ==> body == []
  {
    match r
    case Partial(start, end, _) =>
      body := ServeFrom(file.value, start, end - start + 1);
    case Wrapped(start, _, _, length) =>
      body := ServeFrom(file.value, start, length);
      if |file.value| <= LongMax {
        RestOfFile(r, file.value, body);
      }
    case Whole(_) =>
      body := ServeWhole(file.value);
    case _ =>
      body := [];
  }

  /**
   * `Handle` including its body. A partial answer carries exactly the bytes
   * `start..end` of the file and a whole answer carries the whole file. Either
   * way the body is as long as the `Content-Length` header says. An answer
   * whose length wrapped carries the rest of the file from `start`, which for
   * a file no longer than a `long` is shorter than the length it announces.
   * Every other answer has no body.
   */
  method Serve(absolutePath: Option<string>, file: Option<seq<Byte>>, range: Option<string>)
    returns (r: Response, body: seq<Byte>)
    ensures r == Respond(absolutePath, LengthOf(file), range)
    ensures r.Partial? ==> body == file.value[r.start..r.end + 1]
    ensures r.Whole? ==> body == file.value
    ensures r.Wrapped? && |file.value| <= LongMax ==> body == file.value[r.start..] && |body| < ContentLength(r).value
    ensures r.Partial? || r.Whole? ==> |body| == ContentLength(r).value
    ensures ContentLength(r).None? ==> body == []
  {
    r := Respond(absolutePath, LengthOf(file), range);
    RespondFits(absolutePath, file, range);
    body := Answer(r, file);
  }

  /**
   * A wrapped length is at least 2^63 + 1 - `start`, more than a file no
   * longer than a `long` has left, so the copy stops at the file's end.
   */
  lemma RestOfFile(r: Response, file: seq<Byte>, body: seq<Byte>)
    requires r.Wrapped? && 0 <= r.start < |file| <= LongMax && LongMin <= r.end
    requires r.length == r.end - r.start + 1 + 0x1_0000_0000_0000_0000
    requires body == file[r.start..r.start + Copied(r.length, |file| - r.start)]
    ensures body == file[r.start..] && |body| < ContentLength(r).value
  {
    assert file[r.start..r.start + (|file| - r.start)] == file[r.start..];
  }
}
