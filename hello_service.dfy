/**
 * The test service: a reader that serves a given number of random bytes and
 * can be repositioned, the byte counter of the upload handler, and the size
 * and headers of a random-file download.
 */
module HelloService {
  import opened Wrappers
  import opened Decimal
  import opened Http

  // ---------------------------------------------------------------------------
  // RandomDataReader

  /** io.SeekStart, io.SeekCurrent and io.SeekEnd. */
  const SeekStart: int := 0
  const SeekCurrent: int := 1
  const SeekEnd: int := 2

  /**
   * The byte counts successive results into a buffer of `len` bytes return,
   * starting at `offset`, up to the read that reports end of file.
   */
  function ReadSizes(size: int, offset: int, len: nat): (r: seq<int>)
    requires len > 0
    ensures forall i :: 0 <= i < |r| ==> 0 < r[i] <= len
    decreases size - offset
  {
    if offset >= size then []
    else
      var k := Min(len, size - offset);
      [k] + ReadSizes(size, offset + k, len)
  }

  /** The results from `offset` deliver exactly the bytes left before `size`. */
  lemma {:induction false} ReadSizesSum(size: int, offset: int, len: nat)
    requires len > 0
    ensures Sum(ReadSizes(size, offset, len)) == Max(size - offset, 0)
    decreases size - offset
  {
    if offset < size {
      var k := Min(len, size - offset);
      ReadSizesSum(size, offset + k, len);
      SumCons(k, ReadSizes(size, offset + k, len));
    }
  }

  /** Every read but the last fills the whole buffer. */
  lemma {:induction false} ReadSizesFull(size: int, offset: int, len: nat)
    requires len > 0
    ensures forall i :: 0 <= i < |ReadSizes(size, offset, len)| - 1 ==> ReadSizes(size, offset, len)[i] == len
    decreases size - offset
  {
    if offset < size {
      var k := Min(len, size - offset);
      ReadSizesFull(size, offset + k, len);
      var rest := ReadSizes(size, offset + k, len);
      var r := [k] + rest;
      forall i | 0 <= i < |r| - 1
        ensures r[i] == len
      {
        if i == 0 {
          assert rest != [];
        } else {
          assert r[i] == rest[i - 1];
        }
      }
    }
  }

  /**
   * The position a seek asks for, or None for an unknown whence: the int64
   * equal, modulo 2^64, to the offset added to the start, the current
   * position or the size.
   */
  function SeekTarget(current: int, size: int, offset: int, whence: int): (r: Option<int>)
    requires InInt64(current) && InInt64(size) && InInt64(offset)
    ensures r.Some? <==> whence == SeekStart || whence == SeekCurrent || whence == SeekEnd
    ensures r.Some? ==> InInt64(r.value)
    ensures r.Some? ==>
      var base := if whence == SeekStart then 0 else if whence == SeekCurrent then current else size;
      (r.value - (base + offset)) % TwoTo64 == 0
  {
    if whence == SeekStart then Some(offset)
    else if whence == SeekCurrent then Some(Wrap64(current + offset))
    else if whence == SeekEnd then Some(Wrap64(size + offset))
    else None
  }

  /** Without overflow the target is the plain sum, and it may lie beyond the size. */
  lemma SeekTargetExact(current: int, size: int, offset: int, whence: int)
    requires InInt64(current) && InInt64(size) && InInt64(offset)
    requires whence == SeekStart || whence == SeekCurrent || whence == SeekEnd
    requires var base := if whence == SeekStart then 0 else if whence == SeekCurrent then current else size;
      InInt64(base + offset)
    ensures var base := if whence == SeekStart then 0 else if whence == SeekCurrent then current else size;
      SeekTarget(current, size, offset, whence) == Some(base + offset)
  {
    var base := if whence == SeekStart then 0 else if whence == SeekCurrent then current else size;
    var t := SeekTarget(current, size, offset, whence).value;
    assert (t - (base + offset)) % TwoTo64 == 0;
  }

  /** A reader of `size` random bytes with a read position. */
  class RandomDataReader {
    var size: int
    var offset: int

    predicate Valid()
      reads this
    {
      InInt64(size) && 0 <= offset <= MaxInt64
    }

    /** &RandomDataReader{size: size}: the position starts at zero. */
    constructor (size: int)
      requires InInt64(size)
      ensures Valid() && this.size == size && offset == 0
    {
      this.size := size;
      offset := 0;
    }

    /**
     * Fills the front of `p` with random bytes: as many as the buffer holds
     * and the size still allows; at or past the size it reports end of file.
     */
    method Read(p: array<byte>) returns (n: int, eof: bool)
      requires Valid()
      modifies this, p
      ensures Valid() && size == old(size)
      ensures eof <==> old(offset) >= size
      ensures eof ==> n == 0 && offset == old(offset)
      ensures !eof ==> n == Min(p.Length, size - old(offset)) && offset == old(offset) + n
      ensures 0 <= n <= p.Length && p[n..] == old(p[n..])
      ensures p.Length > 0 ==>
        ReadSizes(size, old(offset), p.Length) == if eof then [] else [n] + ReadSizes(size, offset, p.Length)
    {
      if offset >= size {
        return 0, true;
      }
      var remaining := size - offset;
      var toRead := p.Length;
      if toRead > remaining {
        toRead := remaining;
      }
      for i := 0 to toRead
        invariant p[toRead..] == old(p[toRead..])
        invariant size == old(size) && offset == old(offset)
      {
        var b: byte :| true;
        p[i] := b;
      }
      offset := offset + toRead;
      return toRead, false;
    }

    /** Moves the position; an unknown whence or a negative target is refused and moves nothing. */
    method Seek(off: int, whence: int) returns (pos: int, ok: bool)
      requires Valid() && InInt64(off)
      modifies this
      ensures Valid() && size == old(size)
      ensures var t := SeekTarget(old(offset), size, off, whence);
        && ok == (t.Some? && t.value >= 0)
        && (ok ==> pos == t.value && offset == pos)
        && (!ok ==> pos == 0 && offset == old(offset))
    {
      var abs: int;
      if whence == SeekStart {
        abs := off;
      } else if whence == SeekCurrent {
        abs := Wrap64(offset + off);
      } else if whence == SeekEnd {
        abs := Wrap64(size + off);
      } else {
        return 0, false;
      }
      if abs < 0 {
        return 0, false;
      }
      offset := abs;
      return abs, true;
    }
  }

  // ---------------------------------------------------------------------------
  // Upload

  datatype ReadErr = NoError | EndOfFile | ReadFailed

  /** One call of the request body's Read: the byte count and the error. */
  datatype BodyRead = BodyRead(n: nat, err: ReadErr)

  datatype UploadResponse = UploadError(status: int, message: string) | Uploaded(uuid: string, size: int)

  /** A body that eventually reports end of file or an error. */
  predicate Ends(results: seq<BodyRead>)
  {
    results != [] && results[|results| - 1].err != NoError
  }

  /** The index of the first read at or after `from` that reports an error or end of file. */
  function FirstStop(results: seq<BodyRead>, from: nat): (k: nat)
    requires from < |results| && Ends(results)
    ensures from <= k < |results| && results[k].err != NoError
    ensures forall j :: from <= j < k ==> results[j].err == NoError
    decreases |results| - from
  {
    if results[from].err != NoError then from else FirstStop(results, from + 1)
  }

  /** The bytes the reads returned, all together. */
  function Total(results: seq<BodyRead>): int
  {
    if results == [] then 0 else Total(results[..|results| - 1]) + results[|results| - 1].n
  }

  /** What handleFileUpload answers for a request with `contentLength` whose body reads as `results`. */
  function UploadOutcome(uuid: string, contentLength: int, results: seq<BodyRead>): UploadResponse
    requires Ends(results)
  {
    if contentLength <= 0 then UploadError(400, "Content-Length required")
    else
      var k := FirstStop(results, 0);
      if results[k].err == ReadFailed then UploadError(500, "Error reading upload")
      else Uploaded(uuid, Wrap64(Total(results[..k + 1])))
  }

  /** handleFileUpload: counts the bytes of the body until end of file. */
  method HandleFileUpload(uuid: string, contentLength: int, results: seq<BodyRead>) returns (resp: UploadResponse)
    requires Ends(results)
    ensures resp == UploadOutcome(uuid, contentLength, results)
  {
    if contentLength <= 0 {
      return UploadError(400, "Content-Length required");
    }
    ghost var k := FirstStop(results, 0);
    var totalBytes := 0;
    var i := 0;
    while true
      invariant 0 <= i <= k
      invariant totalBytes == Wrap64(Total(results[..i]))
      decreases k - i
    {
      var r := results[i];
      assert results[..i + 1][..i] == results[..i];
      Wrap64Add(Total(results[..i]), r.n);
      if r.n > 0 {
        totalBytes := Wrap64(totalBytes + r.n);
      }
      if r.err == EndOfFile {
        break;
      }
      if r.err != NoError {
        return UploadError(500, "Error reading upload");
      }
      i := i + 1;
    }
    return Uploaded(uuid, totalBytes);
  }

  /** The count covers every read before end of file and the bytes returned with it. */
  lemma UploadCountsEveryRead(uuid: string, contentLength: int, chunks: seq<BodyRead>, last: nat)
    requires contentLength > 0
    requires forall j :: 0 <= j < |chunks| ==> chunks[j].err == NoError
    requires InInt64(Total(chunks) + last)
    ensures UploadOutcome(uuid, contentLength, chunks + [BodyRead(last, EndOfFile)]) == Uploaded(uuid, Total(chunks) + last)
  {
    var results := chunks + [BodyRead(last, EndOfFile)];
    FirstStopAfterData(results, 0, |chunks|);
    assert results[..|chunks| + 1] == results;
    assert results[..|chunks|] == chunks;
  }

  /** A read error before end of file fails the whole upload, whatever was counted. */
  lemma UploadFailsOnError(uuid: string, contentLength: int, chunks: seq<BodyRead>, last: nat, rest: seq<BodyRead>)
    requires contentLength > 0
    requires forall j :: 0 <= j < |chunks| ==> chunks[j].err == NoError
    requires Ends(chunks + [BodyRead(last, ReadFailed)] + rest)
    ensures UploadOutcome(uuid, contentLength, chunks + [BodyRead(last, ReadFailed)] + rest) == UploadError(500, "Error reading upload")
  {
    FirstStopAfterData(chunks + [BodyRead(last, ReadFailed)] + rest, 0, |chunks|);
  }

  /** The scan stops at the first read that is not plain data. */
  lemma {:induction false} FirstStopAfterData(results: seq<BodyRead>, from: nat, k: nat)
    requires from <= k < |results| && Ends(results)
    requires results[k].err != NoError
    requires forall j :: from <= j < k ==> results[j].err == NoError
    ensures FirstStop(results, from) == k
    decreases k - from
  {
    if from < k {
      FirstStopAfterData(results, from + 1, k);
    }
  }

  // ---------------------------------------------------------------------------
  // Download

  /** The size served when the query gives none that parses: 1 MiB. */
  const DefaultSize: int := 1048576

  /** The `size` query value as handleFileDownload results it. */
  function DownloadSize(sizeQuery: string): (r: int)
    ensures InInt64(r)
    ensures ParseInt64(sizeQuery).Some? ==> r == ParseInt64(sizeQuery).value
    ensures ParseInt64(sizeQuery).None? ==> r == DefaultSize
  {
    if sizeQuery != "" then
      match ParseInt64(sizeQuery)
      case Some(v) => v
      case None => DefaultSize
    else DefaultSize
  }

  /** A size the client wrote with %d is served as written. */
  lemma DownloadSizeRoundTrip(n: int)
    requires InInt64(n)
    ensures DownloadSize(FormatInt(n)) == n
  {
    FormatParseRoundTrip(n);
  }

  function DownloadHeaders(fileID: string, size: int): seq<Header>
  {
    [ Header("Content-Disposition", "attachment; filename=random-" + fileID + ".bin"),
      Header("Content-Type", "application/octet-stream"),
      Header("Content-Length", FormatInt(size)) ]
  }

  /** The announced length parses back to the size, which is what the reader then delivers. */
  lemma DownloadLengthMatches(fileID: string, sizeQuery: string, len: nat)
    requires len > 0
    ensures var size := DownloadSize(sizeQuery);
      && HeaderValue(DownloadHeaders(fileID, size), "Content-Length") == Some(FormatInt(size))
      && ParseInt64(FormatInt(size)) == Some(size)
      && (size >= 0 ==> Sum(ReadSizes(size, 0, len)) == size)
  {
    var size := DownloadSize(sizeQuery);
    var hs := DownloadHeaders(fileID, size);
    assert "Content-Disposition"[8] != "Content-Length"[8];
    assert "Content-Type"[8] != "Content-Length"[8];
    HeaderValueAt(hs, 2);
    FormatParseRoundTrip(size);
    ReadSizesSum(size, 0, len);
  }

  /** handleFileDownload: the headers and a fresh reader of the requested size. */
  method HandleFileDownload(fileID: string, sizeQuery: string) returns (headers: seq<Header>, reader: RandomDataReader)
    ensures fresh(reader) && reader.Valid()
    ensures reader.size == DownloadSize(sizeQuery) && reader.offset == 0
    ensures headers == DownloadHeaders(fileID, reader.size)
  {
    var size := DefaultSize;
    if sizeQuery != "" {
      var parsed := ParseInt64(sizeQuery);
      if parsed.Some? {
        size := parsed.value;
      }
    }
    headers := DownloadHeaders(fileID, size);
    reader := new RandomDataReader(size);
  }
}
