/**
 * The request handling of app/web/api/gen_tvc/views.py that is more than
 * plumbing: the byte range `stream_video` serves (section 2.1 of RFC 7233),
 * the headers it sets (section 4.2), the chunked reader `file_iterator` over
 * the file's bytes, and the URL rewriting `get_task` applies to a task's
 * video lists. The file is a byte sequence; its size is the sequence's length.
 */
module Views {
  import opened Wrappers
  import opened Text

  type byte = bv8

  function Min(a: int, b: int): int { if a <= b then a else b }
  function Max(a: int, b: int): int { if a >= b then a else b }

  // ---------------------------------------------------------------------
  // The byte range of `stream_video`
  // ---------------------------------------------------------------------

  /** The exceptions the range computation can raise: `[1]` on a header
      without "bytes=", `int(...)` or the two-name unpacking, and
      `video_size - None`. `NotSatisfiable` is only produced by the
      corrected computation (a 416 response, section 4.4 of RFC 7233). */
  datatype RangeError = IndexError | ValueError | TypeError | NotSatisfiable

  datatype ByteRange = ByteRange(start: int, end: int, length: int)

  /** One side of the dash: empty text is `None`, anything else goes through `int`. */
  function ParsePart(p: string): Result<Option<int>, RangeError>
  {
    if p == [] then Ok(None)
    else match ParseInt(p)
      case Some(n) => Ok(Some(n))
      case None => Err(ValueError)
  }

  /** The list comprehension over the dash-separated parts; the first part
      `int` rejects raises. */
  function ParseParts(parts: seq<string>): (r: Result<seq<Option<int>>, RangeError>)
    ensures r.Ok? ==> |r.value| == |parts|
    ensures r.Err? ==> r.error == ValueError
    decreases |parts|
  {
    if parts == [] then Ok([])
    else match ParsePart(parts[0])
      case Err(e) => Err(e)
      case Ok(v) =>
        match ParseParts(parts[1..])
        case Err(e) => Err(e)
        case Ok(vs) => Ok([v] + vs)
  }

  /** `range_header.split("bytes=")[1]`, split at '-', parsed and unpacked into two names. */
  function RangeBounds(header: string): Result<(Option<int>, Option<int>), RangeError>
  {
    var pieces := Split(header, "bytes=");
    if |pieces| < 2 then Err(IndexError)
    else match ParseParts(Split(pieces[1], "-"))
      case Err(e) => Err(e)
      case Ok(vs) => if |vs| != 2 then Err(ValueError) else Ok((vs[0], vs[1]))
  }

  /** The range `stream_video` serves for the Range header (`None` when the
      request has none) and a file of `size` bytes, as written: the end is
      not clamped to the file and the bounds are not compared. */
  function ComputeRange(header: Option<string>, size: int): (r: Result<ByteRange, RangeError>)
    ensures r.Ok? ==> r.value.length == r.value.end - r.value.start + 1
    ensures r.Err? ==> r.error != NotSatisfiable
  {
    if header == None || header == Some("") then Ok(ByteRange(0, size - 1, size))
    else match RangeBounds(header.value)
      case Err(e) => Err(e)
      case Ok(bounds) =>
        var (first, last) := bounds;
        if first.None? && last.None? then Err(TypeError)
        else
          var start := if first.None? then size - last.value else first.value;
          var end := if first.None? || last.None? then size - 1 else last.value;
          Ok(ByteRange(start, end, end - start + 1))
  }

  /** Text without a 'b' holds no "bytes=", so the prefix splits off once. */
  lemma PrefixSplits(x: string)
    requires 'b' !in x
    ensures Split("bytes=" + x, "bytes=") == [[], x]
  {
    SplitLeading(x, "bytes=");
    MissingFirstCharNotSubstring("bytes=", x);
    SplitAbsent(x, "bytes=");
  }

  /** The decimal text of a number holds none of the given non-digit characters. */
  lemma NumeralHasNo(n: nat, c: char)
    requires !IsDigit(c)
    ensures c !in NatToString(n) && NatToString(n) != []
  {
    NatToStringDigits(n);
  }

  lemma ParseNumeral(n: nat)
    ensures ParsePart(NatToString(n)) == Ok(Some(n))
  {
    ParseIntToString(n);
    NumeralHasNo(n, 'b');
  }

  lemma ParsePartsPair(p: string, q: string)
    ensures ParsePart(p).Ok? && ParsePart(q).Ok? ==>
      ParseParts([p, q]) == Ok([ParsePart(p).value, ParsePart(q).value])
  {
    if ParsePart(p).Ok? && ParsePart(q).Ok? {
      var u, v := ParsePart(p).value, ParsePart(q).value;
      assert [p, q][1..] == [q];
      assert [q][1..] == [];
      assert ParseParts([]) == Ok([]);
      assert [v] + [] == [v];
      assert ParseParts([q]) == Ok([v]);
      assert [u] + [v] == [u, v];
    }
  }

  /** The bounds of "bytes=" + x once x has been split at its dashes. */
  lemma BoundsOf(x: string, parts: seq<string>)
    requires 'b' !in x && Split(x, "-") == parts
    ensures RangeBounds("bytes=" + x) ==
      match ParseParts(parts)
      case Err(e) => Err(e)
      case Ok(vs) => if |vs| != 2 then Err(ValueError) else Ok((vs[0], vs[1]))
  {
    PrefixSplits(x);
  }

  /** The range that known bounds give. */
  lemma RangeOfBounds(header: string, size: int, first: Option<int>, last: Option<int>)
    requires header != [] && RangeBounds(header) == Ok((first, last))
    ensures ComputeRange(Some(header), size) ==
      if first.None? && last.None? then Err(TypeError)
      else
        var start := if first.None? then size - last.value else first.value;
        var end := if first.None? || last.None? then size - 1 else last.value;
        Ok(ByteRange(start, end, end - start + 1))
  {
  }

  /** The same table for any header whose bounds parse; such a header is never empty. */
  lemma BoundsGiven(header: string, size: int, first: Option<int>, last: Option<int>)
    requires RangeBounds(header) == Ok((first, last))
    ensures ComputeRange(Some(header), size) ==
      if first.None? && last.None? then Err(TypeError)
      else
        var start := if first.None? then size - last.value else first.value;
        var end := if first.None? || last.None? then size - 1 else last.value;
        Ok(ByteRange(start, end, end - start + 1))
  {
    assert header != [];
    RangeOfBounds(header, size, first, last);
  }

  /** No header, or an empty one: the whole file. */
  lemma NoRangeIsWholeFile(size: int, header: Option<string>)
    requires header == None || header == Some("")
    ensures ComputeRange(header, size) == Ok(ByteRange(0, size - 1, size))
  {
  }

  lemma {:induction false} ClosedBounds(a: nat, b: nat)
    ensures RangeBounds("bytes=" + NatToString(a) + "-" + NatToString(b)) == Ok((Some(a), Some(b)))
  {
    var x := NatToString(a) + "-" + NatToString(b);
    assert "bytes=" + NatToString(a) + "-" + NatToString(b) == "bytes=" + x;
    NumeralHasNo(a, 'b'); NumeralHasNo(b, 'b'); NumeralHasNo(a, '-'); NumeralHasNo(b, '-');
    SplitAtChar(NatToString(a), '-', NatToString(b));
    MissingFirstCharNotSubstring("-", NatToString(b));
    SplitAbsent(NatToString(b), "-");
    BoundsOf(x, [NatToString(a), NatToString(b)]);
    ParseNumeral(a); ParseNumeral(b);
    ParsePartsPair(NatToString(a), NatToString(b));
  }

  /** "bytes=a-b" serves a..b with length b-a+1, whatever the file size. */
  lemma ClosedRange(a: nat, b: nat, size: int)
    ensures ComputeRange(Some("bytes=" + NatToString(a) + "-" + NatToString(b)), size)
         == Ok(ByteRange(a, b, b - a + 1))
  {
    ClosedBounds(a, b);
    BothBoundsGiven("bytes=" + NatToString(a) + "-" + NatToString(b), size, a, b);
  }

  lemma BothBoundsGiven(h: string, size: int, a: int, b: int)
    requires RangeBounds(h) == Ok((Some(a), Some(b)))
    ensures ComputeRange(Some(h), size) == Ok(ByteRange(a, b, b - a + 1))
  {
    assert h != [];
  }

  lemma {:induction false} OpenBounds(a: nat)
    ensures RangeBounds("bytes=" + NatToString(a) + "-") == Ok((Some(a), None))
  {
    var x := NatToString(a) + "-";
    assert "bytes=" + NatToString(a) + "-" == "bytes=" + x;
    NumeralHasNo(a, 'b'); NumeralHasNo(a, '-');
    SplitAtChar(NatToString(a), '-', []);
    assert NatToString(a) + ['-'] + [] == x;
    BoundsOf(x, [NatToString(a), []]);
    ParseNumeral(a);
    ParsePartsPair(NatToString(a), []);
  }

  /** "bytes=a-" serves from a to the last byte. */
  lemma OpenRange(a: nat, size: int)
    ensures ComputeRange(Some("bytes=" + NatToString(a) + "-"), size)
         == Ok(ByteRange(a, size - 1, size - a))
  {
    OpenBounds(a);
    OpenBoundsGiven("bytes=" + NatToString(a) + "-", size, a);
  }

  lemma OpenBoundsGiven(h: string, size: int, a: int)
    requires RangeBounds(h) == Ok((Some(a), None))
    ensures ComputeRange(Some(h), size) == Ok(ByteRange(a, size - 1, size - a))
  {
    BoundsGiven(h, size, Some(a), None);
  }

  lemma {:induction false} SuffixBounds(n: nat)
    ensures RangeBounds("bytes=-" + NatToString(n)) == Ok((None, Some(n)))
  {
    var x := "-" + NatToString(n);
    assert "bytes=-" + NatToString(n) == "bytes=" + x;
    NumeralHasNo(n, 'b'); NumeralHasNo(n, '-');
    SplitAtChar([], '-', NatToString(n));
    assert [] + ['-'] + NatToString(n) == x;
    MissingFirstCharNotSubstring("-", NatToString(n));
    SplitAbsent(NatToString(n), "-");
    BoundsOf(x, [[], NatToString(n)]);
    ParseNumeral(n);
    ParsePartsPair([], NatToString(n));
  }

  /** "bytes=-n" serves the last n bytes, starting at size-n, which is
      negative when n exceeds the file. */
  lemma SuffixRange(n: nat, size: int)
    ensures ComputeRange(Some("bytes=-" + NatToString(n)), size)
         == Ok(ByteRange(size - n, size - 1, n))
  {
    SuffixBounds(n);
    BoundsGiven("bytes=-" + NatToString(n), size, None, Some(n));
  }

  /** "bytes=-": neither bound, and `video_size - None` raises. */
  lemma BothBoundsMissingFails(size: int)
    ensures ComputeRange(Some("bytes=-"), size) == Err(TypeError)
  {
    SplitAtChar([], '-', []);
    assert [] + ['-'] + [] == "-";
    BoundsOf("-", [[], []]);
    ParsePartsPair([], []);
    assert "bytes=" + "-" == "bytes=-";
  }

  /** A header without "bytes=" raises instead of falling back to the whole file. */
  lemma MissingPrefixFails(header: string, size: int)
    requires header != [] && !IsSubstring("bytes=", header)
    ensures ComputeRange(Some(header), size) == Err(IndexError)
  {
    SplitAbsent(header, "bytes=");
  }

  lemma ThreeParts(p: string, q: string, t: string)
    requires '-' !in p && '-' !in q
    ensures Split(p + "-" + q + "-" + t, "-") == [p] + ([q] + Split(t, "-"))
  {
    SplitAtChar(p, '-', q + "-" + t);
    assert p + ['-'] + (q + "-" + t) == p + "-" + q + "-" + t;
    SplitAtChar(q, '-', t);
    assert q + ['-'] + t == q + "-" + t;
  }

  /** Two dashes give three parts, and the unpacking (or `int`) raises. */
  lemma TwoDashesFail(p: string, q: string, t: string, size: int)
    requires '-' !in p && '-' !in q && 'b' !in p + q + t
    ensures ComputeRange(Some("bytes=" + p + "-" + q + "-" + t), size) == Err(ValueError)
  {
    var x := p + "-" + q + "-" + t;
    assert "bytes=" + p + "-" + q + "-" + t == "bytes=" + x;
    assert 'b' !in x by {
      assert forall c :: c in x && c != '-' ==> c in p + q + t;
    }
    var parts := [p] + ([q] + Split(t, "-"));
    ThreeParts(p, q, t);
    BoundsOf(x, parts);
    assert |parts| >= 3;
    assert RangeBounds("bytes=" + x) == Err(ValueError);
  }

  // ---------------------------------------------------------------------
  // The response headers (section 4.2 of RFC 7233)
  // ---------------------------------------------------------------------

  datatype StreamHeaders = StreamHeaders(
    status: int, contentRange: string, acceptRanges: string, contentLength: string)

  /** "bytes start-end/size". */
  function ContentRange(r: ByteRange, size: int): string
  {
    "bytes " + IntToString(r.start) + "-" + IntToString(r.end) + "/" + IntToString(size)
  }

  /** The headers and status `stream_video` sets, 206 even without a Range header. */
  function ResponseHeaders(r: ByteRange, size: int): (h: StreamHeaders)
    ensures h.status == 206 && h.acceptRanges == "bytes"
    ensures h.contentRange == ContentRange(r, size)
  {
    StreamHeaders(206, ContentRange(r, size), "bytes", IntToString(r.length))
  }

  /** A reader of the Content-Range value "bytes first-last/complete". */
  function ParseContentRange(t: string): Option<(int, int, int)>
  {
    if !StartsWith(t, "bytes ") then None
    else
      var parts := Split(t[6..], "/");
      if |parts| != 2 then None
      else
        var bounds := Split(parts[0], "-");
        if |bounds| != 2 then None
        else match (ParseInt(bounds[0]), ParseInt(bounds[1]), ParseInt(parts[1]))
          case (Some(a), Some(b), Some(c)) => Some((a, b, c))
          case _ => None
  }

  /** Content-Length reads back as the length of the range. */
  lemma ContentLengthRoundTrip(r: ByteRange, size: int)
    ensures ParseInt(ResponseHeaders(r, size).contentLength) == Some(r.length)
  {
    ParseIntToString(r.length);
  }

  /** Two pieces joined by a character neither contains split back apart. */
  lemma SplitPair(u: string, ch: char, v: string)
    requires ch !in u && ch !in v
    ensures Split(u + [ch] + v, [ch]) == [u, v]
  {
    SplitAtChar(u, ch, v);
    MissingFirstCharNotSubstring([ch], v);
    SplitAbsent(v, [ch]);
  }

  /** Content-Range reads back as the served range and the file size,
      whenever all three are non-negative. */
  lemma ContentRangeRoundTrip(r: ByteRange, size: int)
    requires 0 <= r.start && 0 <= r.end && 0 <= size
    ensures ParseContentRange(ResponseHeaders(r, size).contentRange) == Some((r.start, r.end, size))
  {
    var a, b, c := NatToString(r.start), NatToString(r.end), NatToString(size);
    var u := a + "-" + b;
    var t := ContentRange(r, size);
    assert t == "bytes " + (u + ['/'] + c);
    assert t[..6] == "bytes " && t[6..] == u + ['/'] + c;
    NumeralHasNo(r.start, '/'); NumeralHasNo(r.end, '/'); NumeralHasNo(size, '/');
    NumeralHasNo(r.start, '-'); NumeralHasNo(r.end, '-');
    assert '/' !in u;
    SplitPair(u, '/', c);
    SplitPair(a, '-', b);
    assert a + ['-'] + b == u;
    ParseIntToString(r.start); ParseIntToString(r.end); ParseIntToString(size);
  }

  // ---------------------------------------------------------------------
  // `file_iterator`
  // ---------------------------------------------------------------------

  const ChunkSize: int := 4096

  /** `f.seek` rejects a negative offset, and one that does not fit the
      platform's signed 64-bit file offset. */
  datatype IoError = InvalidSeek | OffsetOverflow

  /** The largest file offset, 2^63 - 1. A file's size is such an offset,
      so no file is larger. */
  const MaxOffset: int := 0x7FFF_FFFF_FFFF_FFFF

  /** `bytes_to_read or video_size`: a missing or zero count reads the file's size. */
  function Remaining(bytesToRead: Option<int>, size: nat): int
  {
    if bytesToRead == None || bytesToRead == Some(0) then size else bytesToRead.value
  }

  /** A position clamped to the end of the file. */
  function Clamp(data: seq<byte>, pos: nat): nat
  {
    Min(pos, |data|)
  }

  /** `f.read(n)` at position `pos`: at most n bytes, fewer at the end of the file. */
  function ReadAt(data: seq<byte>, pos: nat, n: nat): (got: seq<byte>)
    ensures |got| <= n
    ensures got == [] <==> n == 0 || pos >= |data|
  {
    data[Clamp(data, pos)..Clamp(data, pos + n)]
  }

  /** The bytes `file_iterator` yields in all. */
  function StreamedBytes(data: seq<byte>, offset: int, bytesToRead: Option<int>): Result<seq<byte>, IoError>
  {
    if offset < 0 then Err(InvalidSeek)
    else if offset > MaxOffset then Err(OffsetOverflow)
    else
      var rem := Remaining(bytesToRead, |data|);
      if rem <= 0 then Ok([])
      else Ok(data[Clamp(data, offset)..Clamp(data, offset + rem)])
  }

  /** The seek fails exactly on an offset too large for the file offset
      type. Otherwise the stream is the file from `offset` on,
      min(remaining, size-offset) bytes of it (none when that is negative). */
  lemma StreamedBytesFromOffset(data: seq<byte>, offset: nat, bytesToRead: Option<int>)
    ensures StreamedBytes(data, offset, bytesToRead).Ok? <==> offset <= MaxOffset
    ensures offset > MaxOffset ==> StreamedBytes(data, offset, bytesToRead) == Err(OffsetOverflow)
    ensures offset <= MaxOffset ==>
      var body := StreamedBytes(data, offset, bytesToRead).value;
      && |body| == Max(0, Min(Remaining(bytesToRead, |data|), |data| - offset))
      && forall k :: 0 <= k < |body| ==> body[k] == data[offset + k]
  {
  }

  /** The chunks put back together. */
  function Flatten(chunks: seq<seq<byte>>): seq<byte>
    decreases |chunks|
  {
    if chunks == [] then [] else Flatten(chunks[..|chunks| - 1]) + chunks[|chunks| - 1]
  }

  lemma FlattenAppend(chunks: seq<seq<byte>>, c: seq<byte>)
    ensures Flatten(chunks + [c]) == Flatten(chunks) + c
  {
    assert (chunks + [c])[..|chunks|] == chunks;
  }

  /** `file_iterator(file, offset, bytes_to_read)` with its yields collected:
      the chunks make up the streamed bytes and are well chunked. The `seek` fails on a negative offset
      and on one past the largest file offset. */
  method FileIterator(data: seq<byte>, offset: int, bytesToRead: Option<int>)
    returns (r: Result<seq<seq<byte>>, IoError>)
    ensures r.Err? <==> offset < 0 || offset > MaxOffset
    ensures r.Err? ==> StreamedBytes(data, offset, bytesToRead) == Err(r.error)
    ensures r.Ok? ==> StreamedBytes(data, offset, bytesToRead) == Ok(Flatten(r.value))
    ensures r.Ok? ==> WellChunked(r.value)
  {
    if offset < 0 {
      return Err(InvalidSeek);
    }
    if offset > MaxOffset {
      return Err(OffsetOverflow);
    }
    var chunks, pos := ReadChunks(data, offset, Remaining(bytesToRead, |data|));
    StreamEnd(data, offset, pos, bytesToRead);
    return Ok(chunks);
  }

  /** The chunks hold 1 to 4096 bytes each, and all but the last hold 4096. */
  predicate WellChunked(chunks: seq<seq<byte>>)
  {
    && (forall k :: 0 <= k < |chunks| ==> 0 < |chunks[k]| <= ChunkSize)
    && (forall k :: 0 <= k < |chunks| - 1 ==> |chunks[k]| == ChunkSize)
  }

  /** What holds each time the read loop tests `remaining`: the chunks are
      the file from `offset` to `pos`, and a short chunk only comes last. */
  predicate ReadLoopInv(data: seq<byte>, offset: nat, total: int, pos: nat, remaining: int, chunks: seq<seq<byte>>)
  {
    && offset <= pos && pos - offset + remaining == total
    && (remaining < total ==> 0 <= remaining && pos <= |data|)
    && Flatten(chunks) == data[Clamp(data, offset)..Clamp(data, pos)]
    && WellChunked(chunks)
    && (chunks != [] && |chunks[|chunks| - 1]| < ChunkSize ==> remaining == 0 || pos == |data|)
    && (chunks == [] ==> remaining == total)
  }

  /** One pass of the loop that reads something keeps the invariant. */
  lemma ReadLoopStep(data: seq<byte>, offset: nat, total: int, pos: nat, remaining: int, chunks: seq<seq<byte>>)
    requires ReadLoopInv(data, offset, total, pos, remaining, chunks) && remaining > 0
    requires ReadAt(data, pos, Min(ChunkSize, remaining)) != []
    ensures var got := ReadAt(data, pos, Min(ChunkSize, remaining));
      ReadLoopInv(data, offset, total, pos + |got|, remaining - |got|, chunks + [got])
  {
    var want := Min(ChunkSize, remaining);
    var got := ReadAt(data, pos, want);
    assert pos < |data|;
    FlattenAppend(chunks, got);
    ReadExtends(data, offset, pos, want);
    ChunksAppend(chunks, got);
    assert |got| < ChunkSize ==> |got| == remaining || pos + |got| == |data|;
  }

  /** A chunk of 1 to 4096 bytes after full chunks keeps the chunking. */
  lemma ChunksAppend(chunks: seq<seq<byte>>, got: seq<byte>)
    requires WellChunked(chunks) && 0 < |got| <= ChunkSize
    requires chunks != [] ==> |chunks[|chunks| - 1]| == ChunkSize
    ensures WellChunked(chunks + [got])
  {
    var cs := chunks + [got];
    assert forall k :: 0 <= k < |chunks| ==> cs[k] == chunks[k];
  }

  /** The read loop after the seek to `offset`, with `total` bytes to read:
      it stops once `total` bytes are read or a read comes back empty at the
      end of the file, and returns the chunks and the final position. */
  method ReadChunks(data: seq<byte>, offset: nat, total: int) returns (chunks: seq<seq<byte>>, pos: nat)
    ensures offset <= pos && pos - offset <= Max(0, total)
    ensures pos - offset == Max(0, total) || pos >= |data|
    ensures Flatten(chunks) == data[Clamp(data, offset)..Clamp(data, pos)]
    ensures WellChunked(chunks)
  {
    var remaining := total;
    pos := offset;
    chunks := [];
    while remaining > 0
      invariant ReadLoopInv(data, offset, total, pos, remaining, chunks)
      decreases remaining
    {
      var want := Min(ChunkSize, remaining);
      var got := ReadAt(data, pos, want);
      if got == [] {
        return;
      }
      ReadLoopStep(data, offset, total, pos, remaining, chunks);
      remaining := remaining - |got|;
      pos := pos + |got|;
      chunks := chunks + [got];
    }
  }

  /** A read that returns something extends the bytes read so far by it. */
  lemma ReadExtends(data: seq<byte>, offset: nat, pos: nat, n: nat)
    requires offset <= pos && ReadAt(data, pos, n) != []
    ensures pos + |ReadAt(data, pos, n)| <= |data|
    ensures data[Clamp(data, offset)..Clamp(data, pos + |ReadAt(data, pos, n)|)]
         == data[Clamp(data, offset)..Clamp(data, pos)] + ReadAt(data, pos, n)
  {
    var got := ReadAt(data, pos, n);
    assert Clamp(data, pos + |got|) == Clamp(data, pos + n);
    assert data[Clamp(data, offset)..Clamp(data, pos + n)]
        == data[Clamp(data, offset)..Clamp(data, pos)] + data[Clamp(data, pos)..Clamp(data, pos + n)];
  }

  /** Where the loop stops, what it has read is the whole stream: either it
      read all it was asked for, or it reached the end of the file first. */
  lemma StreamEnd(data: seq<byte>, offset: nat, pos: nat, bytesToRead: Option<int>)
    requires offset <= pos && offset <= MaxOffset
    requires pos - offset <= Max(0, Remaining(bytesToRead, |data|))
    requires pos - offset == Max(0, Remaining(bytesToRead, |data|)) || pos >= |data|
    ensures StreamedBytes(data, offset, bytesToRead) == Ok(data[Clamp(data, offset)..Clamp(data, pos)])
  {
    var total := Remaining(bytesToRead, |data|);
    if total <= 0 {
      assert pos == offset;
      assert data[Clamp(data, offset)..Clamp(data, pos)] == [];
    } else if pos - offset != total {
      assert Clamp(data, pos) == Clamp(data, offset + total) == |data|;
    }
  }

  // ---------------------------------------------------------------------
  // What the response promises against what it streams
  // ---------------------------------------------------------------------

  lemma StreamedFrom(data: seq<byte>, offset: nat, n: int)
    requires offset <= |data| <= MaxOffset && n > 0
    ensures StreamedBytes(data, offset, Some(n)) == Ok(data[offset..Min(offset + n, |data|)])
    ensures n == |data| ==> StreamedBytes(data, offset, Some(0)) == Ok(data[offset..])
  {
    assert Min(offset + n, |data|) == |data| ==> data[offset..Min(offset + n, |data|)] == data[offset..];
    if n == |data| {
      assert Remaining(Some(0), |data|) == n;
    }
  }

  /** As written, "bytes=a-b" with b past the end announces b-a+1 bytes but
      streams only the size-a the file has from a. */
  lemma {:induction false} ContentLengthExceedsBody(data: seq<byte>, a: nat, b: nat)
    requires a < |data| <= b && |data| <= MaxOffset
    ensures ComputeRange(Some("bytes=" + NatToString(a) + "-" + NatToString(b)), |data|)
         == Ok(ByteRange(a, b, b - a + 1))
    ensures StreamedBytes(data, a, Some(b - a + 1)) == Ok(data[a..])
    ensures |data[a..]| < b - a + 1
  {
    ClosedRange(a, b, |data|);
    StreamedFrom(data, a, b - a + 1);
    assert Min(a + (b - a + 1), |data|) == |data|;
    assert data[a..Min(a + (b - a + 1), |data|)] == data[a..];
  }

  /** As written, "bytes=a-(a-1)" announces Content-Length 0, but a zero
      count makes `file_iterator` stream the whole rest of the file. */
  lemma {:induction false} EmptyRangeStreamsTail(data: seq<byte>, a: nat)
    requires 0 < a < |data| <= MaxOffset
    ensures ComputeRange(Some("bytes=" + NatToString(a) + "-" + NatToString(a - 1)), |data|)
         == Ok(ByteRange(a, a - 1, 0))
    ensures StreamedBytes(data, a, Some(0)) == Ok(data[a..])
    ensures |data[a..]| > 0
  {
    ClosedRange(a, a - 1, |data|);
    StreamedFrom(data, a, |data|);
  }

  /** As written, a suffix longer than the file starts before byte 0 and
      `seek` fails, where section 2.1 of RFC 7233 serves the whole file. */
  lemma {:induction false} LongSuffixFailsSeek(data: seq<byte>, n: nat)
    requires n > |data|
    ensures var r := ComputeRange(Some("bytes=-" + NatToString(n)), |data|);
      && r.Ok? && r.value.start < 0
      && StreamedBytes(data, r.value.start, Some(r.value.length)) == Err(InvalidSeek)
  {
    SuffixRange(n, |data|);
  }

  /** As written, "bytes=2^63-" is a valid open range, but the start does
      not fit a file offset and `seek` fails, whatever the file. */
  lemma HugeStartFailsSeek(data: seq<byte>)
    ensures var r := ComputeRange(Some("bytes=" + NatToString(MaxOffset + 1) + "-"), |data|);
      && r == Ok(ByteRange(MaxOffset + 1, |data| - 1, |data| - MaxOffset - 1))
      && StreamedBytes(data, r.value.start, Some(r.value.length)) == Err(OffsetOverflow)
  {
    OpenRange(MaxOffset + 1, |data|);
  }

  /** The range as section 2.1 of RFC 7233 defines it: a last position past
      the end means the end, a suffix longer than the file means the whole
      file, and a range that starts past the end, ends before it starts or
      is an empty suffix is not satisfiable (section 4.4). */
  function ComputeRangeClamped(header: Option<string>, size: nat): (r: Result<ByteRange, RangeError>)
    ensures r.Ok? ==> r.value.length == r.value.end - r.value.start + 1
  {
    if header == None || header == Some("") then Ok(ByteRange(0, size - 1, size))
    else match RangeBounds(header.value)
      case Err(e) => Err(e)
      case Ok(bounds) =>
        var (first, last) := bounds;
        if first.None? && last.None? then Err(TypeError)
        else if first.None? then
          if last.value <= 0 || size == 0 then Err(NotSatisfiable)
          else ByteRangeOf(Max(0, size - last.value), size - 1)
        else if first.value < 0 || first.value >= size || (last.Some? && last.value < first.value) then
          Err(NotSatisfiable)
        else ByteRangeOf(first.value, if last.None? then size - 1 else Min(last.value, size - 1))
  }

  function ByteRangeOf(start: int, end: int): (r: Result<ByteRange, RangeError>)
  {
    Ok(ByteRange(start, end, end - start + 1))
  }

  /** The corrected range always lies inside the file; only a whole empty file has length 0. */
  lemma ClampedRangeInsideFile(header: Option<string>, size: nat)
    requires ComputeRangeClamped(header, size).Ok?
    ensures var r := ComputeRangeClamped(header, size).value;
      && 0 <= r.start && r.end < size && r.length == r.end - r.start + 1
      && (r.length <= 0 ==> size == 0 && r.start == 0 && r.length == 0)
  {
  }

  /** With the corrected range, the body is exactly Content-Length bytes:
      the file from `start` to `end`. */
  lemma ClampedBodyMatchesContentLength(data: seq<byte>, header: Option<string>, r: ByteRange)
    requires ComputeRangeClamped(header, |data|) == Ok(r) && |data| <= MaxOffset
    ensures && StreamedBytes(data, r.start, Some(r.length)) == Ok(data[r.start..r.end + 1])
      && |data[r.start..r.end + 1]| == r.length
      && ParseInt(ResponseHeaders(r, |data|).contentLength) == Some(|data[r.start..r.end + 1]|)
  {
    ClampedRangeInsideFile(header, |data|);
    ContentLengthRoundTrip(r, |data|);
    BodyOfRange(data, r);
  }

  lemma BodyOfRange(data: seq<byte>, r: ByteRange)
    requires 0 <= r.start && r.end < |data| && r.length == r.end - r.start + 1
    requires r.length <= 0 ==> |data| == 0 && r.start == 0 && r.length == 0
    requires |data| <= MaxOffset
    ensures StreamedBytes(data, r.start, Some(r.length)) == Ok(data[r.start..r.end + 1])
  {
    if r.length > 0 {
      StreamedFrom(data, r.start, r.length);
    }
  }

  /** With the corrected range, a suffix at least as long as a non-empty
      file serves the whole file. */
  lemma ClampedLongSuffixIsWholeFile(n: nat, size: nat)
    requires n >= size > 0
    ensures ComputeRangeClamped(Some("bytes=-" + NatToString(n)), size) == Ok(ByteRange(0, size - 1, size))
  {
    SuffixBounds(n);
  }

  /** Where the header is satisfiable and well inside the file, the
      corrected range is the one the code computes. */
  lemma ClampedAgreesInsideFile(a: nat, b: nat, size: nat)
    requires a <= b < size
    ensures ComputeRangeClamped(Some("bytes=" + NatToString(a) + "-" + NatToString(b)), size)
         == ComputeRange(Some("bytes=" + NatToString(a) + "-" + NatToString(b)), size)
  {
    ClosedBounds(a, b);
    ClampedAgreesGiven("bytes=" + NatToString(a) + "-" + NatToString(b), a, b, size);
  }

  lemma ClampedAgreesGiven(h: string, a: int, b: int, size: nat)
    requires 0 <= a <= b < size && RangeBounds(h) == Ok((Some(a), Some(b)))
    ensures ComputeRangeClamped(Some(h), size) == ComputeRange(Some(h), size)
  {
    BothBoundsGiven(h, size, a, b);
    assert h != [];
  }

  // ---------------------------------------------------------------------
  // `file_to_uri` and the rewriting in `get_task`
  // ---------------------------------------------------------------------

  /** `str(request.base_url).rstrip("/")`. */
  function Endpoint(baseUrl: string): (e: string)
    ensures e == [] || e[|e| - 1] != '/'
    ensures |e| <= |baseUrl|
    ensures e == baseUrl[..|e|] && forall k :: |e| <= k < |baseUrl| ==> baseUrl[k] == '/'
  {
    RStripChar(baseUrl, '/')
  }

  /** `file_to_uri`: a path under the endpoint stays; any other has the
      task directory replaced by "tasks", backslashes turned into slashes,
      and the endpoint and a slash put in front. */
  function FileToUri(endpoint: string, taskDir: string, file: string): string
  {
    if StartsWith(file, endpoint) then file
    else endpoint + "/" + Replace(Replace(file, taskDir, "tasks"), "\\", "/")
  }

  lemma PrefixStartsWith(e: string, rest: string)
    ensures StartsWith(e + rest, e)
  {
    assert (e + rest)[..|e|] == e;
  }

  /** Every URI is under the endpoint; a rewritten one continues with a
      slash and holds no backslash after it. */
  lemma FileToUriUnderEndpoint(endpoint: string, taskDir: string, file: string)
    ensures StartsWith(FileToUri(endpoint, taskDir, file), endpoint)
    ensures StartsWith(file, endpoint) ==> FileToUri(endpoint, taskDir, file) == file
    ensures !StartsWith(file, endpoint) ==>
      var u := FileToUri(endpoint, taskDir, file);
      |u| > |endpoint| && u[|endpoint|] == '/' && '\\' !in u[|endpoint| + 1..]
  {
    if !StartsWith(file, endpoint) {
      var tail := Replace(Replace(file, taskDir, "tasks"), "\\", "/");
      PrefixStartsWith(endpoint, "/" + tail);
      assert endpoint + "/" + tail == endpoint + ("/" + tail);
      ReplaceRemovesChar(Replace(file, taskDir, "tasks"), '\\', "/");
      assert (endpoint + "/" + tail)[|endpoint| + 1..] == tail;
    }
  }

  /** Rewriting a URI again changes nothing. */
  lemma FileToUriIdempotent(endpoint: string, taskDir: string, file: string)
    ensures FileToUri(endpoint, taskDir, FileToUri(endpoint, taskDir, file)) == FileToUri(endpoint, taskDir, file)
  {
    FileToUriUnderEndpoint(endpoint, taskDir, file);
  }

  /** A relative path with no task directory and no backslash only gets the prefix. */
  lemma FileToUriPlainPath(endpoint: string, taskDir: string, file: string)
    requires !StartsWith(file, endpoint) && |taskDir| > 0 && !IsSubstring(taskDir, file) && '\\' !in file
    ensures FileToUri(endpoint, taskDir, file) == endpoint + "/" + file
  {
    ReplaceAbsent(file, taskDir, "tasks");
    MissingFirstCharNotSubstring("\\", file);
    ReplaceAbsent(file, "\\", "/");
  }

  /** A value of a task's dictionary as `get_task` sees it: a list of paths,
      a single string (iterated character by character), or anything that
      cannot be iterated. */
  datatype TaskValue = StrList(items: seq<string>) | Str(text: string) | NotIterable

  /** What `for v in value` visits. */
  function Items(v: TaskValue): seq<string>
    requires !v.NotIterable?
  {
    match v
    case StrList(xs) => xs
    case Str(s) => seq(|s|, k requires 0 <= k < |s| => [s[k]])
  }

  function UriList(items: seq<string>, endpoint: string, taskDir: string): seq<string>
  {
    seq(|items|, k requires 0 <= k < |items| => FileToUri(endpoint, taskDir, items[k]))
  }

  /** The append loop that builds `urls`. */
  method RewriteUrls(items: seq<string>, endpoint: string, taskDir: string) returns (urls: seq<string>)
    ensures urls == UriList(items, endpoint, taskDir)
  {
    urls := [];
    for i := 0 to |items|
      invariant urls == UriList(items[..i], endpoint, taskDir)
    {
      urls := urls + [FileToUri(endpoint, taskDir, items[i])];
    }
    assert items[..|items|] == items;
  }

  /** The rewriting of one list of paths is element-wise, in order, and
      leaves every entry under the endpoint. */
  lemma UriListElementwise(items: seq<string>, endpoint: string, taskDir: string)
    ensures |UriList(items, endpoint, taskDir)| == |items|
    ensures forall k :: 0 <= k < |items| ==>
      UriList(items, endpoint, taskDir)[k] == FileToUri(endpoint, taskDir, items[k])
      && StartsWith(UriList(items, endpoint, taskDir)[k], endpoint)
  {
    forall k | 0 <= k < |items| {
      FileToUriUnderEndpoint(endpoint, taskDir, items[k]);
    }
  }

  lemma UriListIdempotent(items: seq<string>, endpoint: string, taskDir: string)
    ensures UriList(UriList(items, endpoint, taskDir), endpoint, taskDir) == UriList(items, endpoint, taskDir)
  {
    forall k | 0 <= k < |items|
      ensures UriList(UriList(items, endpoint, taskDir), endpoint, taskDir)[k] == UriList(items, endpoint, taskDir)[k]
    {
      FileToUriIdempotent(endpoint, taskDir, items[k]);
    }
  }

  /** The outcome of rewriting the keys: the dictionary as it then is, and
      whether a `TypeError` interrupted the rewriting. */
  datatype Rewrite = Rewrite(fields: map<string, TaskValue>, failed: bool)

  const VideosKey: string := "videos"
  const CombinedKey: string := "combined_videos"

  function RewriteField(fields: map<string, TaskValue>, key: string, endpoint: string, taskDir: string): Rewrite
  {
    if key !in fields then Rewrite(fields, false)
    else if fields[key].NotIterable? then Rewrite(fields, true)
    else Rewrite(fields[key := StrList(UriList(Items(fields[key]), endpoint, taskDir))], false)
  }

  /** "videos" first, then "combined_videos"; when the second fails, the
      first has already been rewritten in place. */
  function RewriteTask(fields: map<string, TaskValue>, endpoint: string, taskDir: string): Rewrite
  {
    var r := RewriteField(fields, VideosKey, endpoint, taskDir);
    if r.failed then r else RewriteField(r.fields, CombinedKey, endpoint, taskDir)
  }

  /** The rewriting fails exactly when one of the two keys holds a value
      that cannot be iterated. */
  lemma RewriteFailsIffNotIterable(fields: map<string, TaskValue>, endpoint: string, taskDir: string)
    ensures RewriteTask(fields, endpoint, taskDir).failed <==>
      (VideosKey in fields && fields[VideosKey].NotIterable?)
      || (CombinedKey in fields && fields[CombinedKey].NotIterable?)
  {
  }

  /** The keys stay the same and every other key keeps its value. */
  lemma RewriteKeepsOtherKeys(fields: map<string, TaskValue>, endpoint: string, taskDir: string)
    ensures RewriteTask(fields, endpoint, taskDir).fields.Keys == fields.Keys
    ensures forall key :: key in fields && key != VideosKey && key != CombinedKey ==>
      RewriteTask(fields, endpoint, taskDir).fields[key] == fields[key]
  {
  }

  /** After a successful rewriting both lists hold, element by element and
      in order, the URIs of the paths that were there. */
  lemma RewriteMapsLists(fields: map<string, TaskValue>, endpoint: string, taskDir: string, key: string)
    requires !RewriteTask(fields, endpoint, taskDir).failed
    requires key == VideosKey || key == CombinedKey
    requires key in fields
    ensures var after := RewriteTask(fields, endpoint, taskDir).fields;
      && after[key].StrList?
      && |after[key].items| == |Items(fields[key])|
      && forall k :: 0 <= k < |Items(fields[key])| ==>
        after[key].items[k] == FileToUri(endpoint, taskDir, Items(fields[key])[k])
        && StartsWith(after[key].items[k], endpoint)
  {
    UriListElementwise(Items(fields[key]), endpoint, taskDir);
  }

  /** Asking for the same task again rewrites nothing more. */
  lemma RewriteTaskIdempotent(fields: map<string, TaskValue>, endpoint: string, taskDir: string)
    requires !RewriteTask(fields, endpoint, taskDir).failed
    ensures RewriteTask(RewriteTask(fields, endpoint, taskDir).fields, endpoint, taskDir)
         == RewriteTask(fields, endpoint, taskDir)
  {
    var r1 := RewriteField(fields, VideosKey, endpoint, taskDir);
    if VideosKey in fields {
      UriListIdempotent(Items(fields[VideosKey]), endpoint, taskDir);
    }
    if CombinedKey in r1.fields {
      UriListIdempotent(Items(r1.fields[CombinedKey]), endpoint, taskDir);
    }
    var r2 := RewriteTask(fields, endpoint, taskDir);
    var r3 := RewriteTask(r2.fields, endpoint, taskDir);
    assert r3.fields == r2.fields;
  }

  /** The task dictionary `sm.state.get_task` hands out; `get_task` changes it in place. */
  class TaskRecord {
    var fields: map<string, TaskValue>

    constructor(fields: map<string, TaskValue>)
      ensures this.fields == fields
    {
      this.fields := fields;
    }
  }

  datatype TaskResponse =
    | Found(status: int, task: map<string, TaskValue>)
    | NotFound(status: int, message: string)
    | TypeErrorRaised

  /** The rewriting of one value, or failure when it cannot be iterated. */
  method RewriteValue(v: TaskValue, endpoint: string, taskDir: string) returns (ok: bool, urls: seq<string>)
    ensures ok <==> !v.NotIterable?
    ensures ok ==> urls == UriList(Items(v), endpoint, taskDir)
  {
    match v
    case StrList(xs) =>
      ok := true;
      urls := RewriteUrls(xs, endpoint, taskDir);
    case Str(s) =>
      ok := true;
      urls := RewriteUrls(Items(v), endpoint, taskDir);
    case NotIterable =>
      ok := false;
      urls := [];
  }

  /** `get_task`: a missing or empty task is a 404 "<request id>: task not
      found"; otherwise the two lists are rewritten in place and the task
      comes back with status 200, unless a value of theirs cannot be
      iterated. */
  method GetTask(task: TaskRecord?, baseUrl: string, taskDir: string, requestId: string)
    returns (resp: TaskResponse)
    modifies task
    ensures task == null ==> resp == NotFound(404, requestId + ": task not found")
    ensures task != null && old(task.fields) == map[] ==>
      resp == NotFound(404, requestId + ": task not found") && task.fields == old(task.fields)
    ensures task != null && old(task.fields) != map[] ==>
      var r := RewriteTask(old(task.fields), Endpoint(baseUrl), taskDir);
      && task.fields == r.fields
      && resp == (if r.failed then TypeErrorRaised else Found(200, r.fields))
  {
    var endpoint := Endpoint(baseUrl);
    if task != null && task.fields != map[] {
      if VideosKey in task.fields {
        var ok, urls := RewriteValue(task.fields[VideosKey], endpoint, taskDir);
        if !ok {
          return TypeErrorRaised;
        }
        task.fields := task.fields[VideosKey := StrList(urls)];
      }
      if CombinedKey in task.fields {
        var ok, urls := RewriteValue(task.fields[CombinedKey], endpoint, taskDir);
        if !ok {
          return TypeErrorRaised;
        }
        task.fields := task.fields[CombinedKey := StrList(urls)];
      }
      return Found(200, task.fields);
    }
    return NotFound(404, requestId + ": task not found");
  }
}
