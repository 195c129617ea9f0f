/** Chunked upload and download (mtproto/media.go). */
module Transfer {
  import opened Arithmetic
  import opened Bytes
  import opened Streams
  import opened Wrappers

  const DEFAULT_PART_SIZE := 512 * 1024
  const MIN_PART_SIZE := 32 * 1024
  const MAX_PART_SIZE := 512 * 1024
  const SMALL_FILE_LIMIT := 10 * 1024 * 1024

  /** normalizePartSize. */
  method NormalizePartSize(requested: int) returns (v: nat)
    ensures v == PartSize(requested)
  {
    var size := requested;
    if size <= 0 {
      size := DEFAULT_PART_SIZE;
    }
    if size < MIN_PART_SIZE {
      size := MIN_PART_SIZE;
    }
    if size > MAX_PART_SIZE {
      size := MAX_PART_SIZE;
    }
    size := size / 1024 * 1024;
    if size <= 0 {
      size := MIN_PART_SIZE;
    }
    v := size;
  }

  /** The largest multiple of 1024 up to the requested size, within 32 and 512 KiB; 512 KiB when none is requested. */
  function PartSize(requested: int): (v: nat)
    ensures MIN_PART_SIZE <= v <= MAX_PART_SIZE && v % 1024 == 0
    ensures MIN_PART_SIZE <= requested <= MAX_PART_SIZE ==> v <= requested < v + 1024
    ensures requested <= 0 || requested > MAX_PART_SIZE ==> v == 0x8_0000
    ensures 0 < requested < MIN_PART_SIZE ==> v == 0x8000
  {
    var clamped := if requested <= 0 || requested > MAX_PART_SIZE then MAX_PART_SIZE
                   else if requested < MIN_PART_SIZE then MIN_PART_SIZE else requested;
    clamped - clamped % 1024
  }

  // Chunks.

  /** Content cut into pieces of n bytes; empty content is one empty piece. */
  function Chunks(content: seq<byte>, n: nat): (cs: seq<seq<byte>>)
    requires n > 0
    ensures |cs| > 0
    decreases |content|
  {
    if |content| <= n then [content] else [content[..n]] + Chunks(content[n..], n)
  }

  function Concat(cs: seq<seq<byte>>): seq<byte> {
    if cs == [] then [] else cs[0] + Concat(cs[1..])
  }

  /** Chunks lose nothing: joined they are the content; all but the last have exactly n bytes. */
  lemma {:induction false} ChunksLossless(content: seq<byte>, n: nat)
    requires n > 0
    ensures var cs := Chunks(content, n);
            && Concat(cs) == content
            && (forall i :: 0 <= i < |cs| - 1 ==> |cs[i]| == n)
            && |cs[|cs| - 1]| <= n && (content != [] ==> cs[|cs| - 1] != [])
    decreases |content|
  {
    var cs := Chunks(content, n);
    if |content| > n {
      ChunksLossless(content[n..], n);
      assert cs[1..] == Chunks(content[n..], n);
    } else {
      assert cs[1..] == [] && Concat(cs) == cs[0] + Concat(cs[1..]);
    }
  }

  /** The number of parts the source computes by rounding up. */
  function PartCount(size: nat, n: nat): nat
    requires n > 0
  {
    if size == 0 then 1 else (size + n - 1) / n
  }

  lemma PartCountStep(size: nat, n: nat)
    requires n > 0
    ensures size > n ==> PartCount(size, n) == 1 + PartCount(size - n, n)
    ensures size <= n ==> PartCount(size, n) == 1
  {
    if size > n {
      var q, r := (size - 1) / n, (size - 1) % n;
      assert size + n - 1 == n * (q + 1) + r;
      DivModUnique(size + n - 1, n, q + 1, r);
    } else if size > 0 {
      DivModUnique(size + n - 1, n, 1, size - 1);
    }
  }

  lemma {:induction false} ChunkCount(content: seq<byte>, n: nat)
    requires n > 0
    ensures |Chunks(content, n)| == PartCount(|content|, n)
    decreases |content|
  {
    hide PartCount;
    PartCountStep(|content|, n);
    if |content| > n {
      ChunkCount(content[n..], n);
    }
  }

  // Upload.

  /** One request to save a part; only big files announce the total. */
  datatype Part = Part(fileId: i64, number: i32, total: Option<i32>, data: seq<byte>)

  /** The server side of an upload: a log, and for each call acceptance, refusal or an error. */
  class UploadServer {
    const answer: nat -> Option<bool>
    var saved: seq<Part>

    constructor (answer: nat -> Option<bool>)
      ensures this.answer == answer && saved == []
    {
      this.answer, saved := answer, [];
    }

    method Save(p: Part) returns (ok: Option<bool>)
      modifies this
      ensures saved == old(saved) + [p] && ok == answer(|old(saved)|)
    {
      ok := answer(|saved|);
      saved := saved + [p];
    }
  }

  /** The requests of an upload: the chunks numbered from zero, in 32 bits. */
  function Requests(fileId: i64, big: bool, chunks: seq<seq<byte>>): (ps: seq<Part>)
    ensures |ps| == |chunks|
  {
    seq(|chunks|, k requires 0 <= k < |chunks| =>
      Part(fileId, Wrap32(k), if big then Some(Wrap32(|chunks|)) else None, chunks[k]))
  }

  /**
   * Parts are numbered 0 .. parts-1 exactly when there are at most 2^31 of them; the announced
   * total is true for one less.
   */
  lemma PartNumbers(fileId: i64, big: bool, chunks: seq<seq<byte>>)
    ensures (forall k :: 0 <= k < |chunks| ==> Requests(fileId, big, chunks)[k].number == k)
            <==> |chunks| <= 0x8000_0000
    ensures big ==> forall k :: 0 <= k < |chunks| ==>
              (Requests(fileId, big, chunks)[k].total == Some(|chunks|) <==> |chunks| < 0x8000_0000)
  {
    var ps := Requests(fileId, big, chunks);
    if |chunks| > 0x8000_0000 {
      assert ps[0x8000_0000].number != 0x8000_0000;
    }
  }

  /** The first `size` bytes of a stream, continued by zeros where it is too short. */
  function Content(stream: seq<byte>, size: nat): (content: seq<byte>)
    ensures |content| == size
  {
    if |stream| >= size then stream[..size] else stream + Zeros(size - |stream|)
  }

  /** What an upload does: how many parts it sends, whether it succeeds, and what the reader has left. */
  datatype Upload = Upload(sent: nat, ok: bool, left: seq<byte>)

  /** The rounds for the chunks, from a server call on: up to the first part that cannot be read or is not accepted. */
  function Rounds(answer: nat -> Option<bool>, call: nat, chunks: seq<seq<byte>>, stream: seq<byte>): Upload
    decreases |chunks|
  {
    if chunks == [] then Upload(0, true, stream)
    else
      var n := |chunks[0]|;
      if |stream| < n then Upload(0, false, [])
      else if answer(call) != Some(true) then Upload(1, false, stream[n..])
      else
        var later := Rounds(answer, call + 1, chunks[1..], stream[n..]);
        later.(sent := 1 + later.sent)
  }

  /** The server accepts the n calls from `start` on. */
  ghost predicate AllAccepted(answer: nat -> Option<bool>, start: nat, n: nat) {
    forall k :: start <= k < start + n ==> answer(k) == Some(true)
  }

  /** An upload succeeds exactly when the stream has all bytes of the chunks and the server accepts every one. */
  lemma {:induction false} RoundsSucceed(answer: nat -> Option<bool>, call: nat, chunks: seq<seq<byte>>,
                                         stream: seq<byte>)
    ensures var u := Rounds(answer, call, chunks, stream);
            && u.sent <= |chunks|
            && (u.ok <==> |stream| >= |Concat(chunks)| && AllAccepted(answer, call, |chunks|))
            && (u.ok ==> u.sent == |chunks| && u.left == stream[|Concat(chunks)|..])
    decreases |chunks|
  {
    if chunks != [] && |stream| >= |chunks[0]| && answer(call) == Some(true) {
      RoundsSucceed(answer, call + 1, chunks[1..], stream[|chunks[0]|..]);
    }
  }

  lemma ConcatFront(chunks: seq<seq<byte>>, k: nat)
    requires 0 < k <= |chunks|
    ensures Concat(chunks[..k]) == chunks[0] + Concat(chunks[1..][..k - 1])
  {
    assert chunks[..k][1..] == chunks[1..][..k - 1];
  }

  /** The parts sent had their bytes, and all but the last were accepted. */
  lemma {:induction false} RoundsSent(answer: nat -> Option<bool>, call: nat, chunks: seq<seq<byte>>, stream: seq<byte>)
    ensures var u := Rounds(answer, call, chunks, stream);
            && u.sent <= |chunks| && |Concat(chunks[..u.sent])| <= |stream|
            && (u.sent > 0 ==> AllAccepted(answer, call, u.sent - 1))
    decreases |chunks|
  {
    hide Concat;
    NothingJoined();
    if chunks != [] {
      var u := Rounds(answer, call, chunks, stream);
      if |stream| >= |chunks[0]| {
        assert chunks[1..][..0] == [];
        if answer(call) == Some(true) {
          RoundsSent(answer, call + 1, chunks[1..], stream[|chunks[0]|..]);
        }
        ConcatFront(chunks, u.sent);
      }
    }
  }

  /**
   * An upload that fails stopped because its last part was not accepted, or because the stream
   * lacks bytes for the next.
   */
  lemma {:induction false} RoundsStop(answer: nat -> Option<bool>, call: nat, chunks: seq<seq<byte>>, stream: seq<byte>)
    requires !Rounds(answer, call, chunks, stream).ok
    ensures var u := Rounds(answer, call, chunks, stream);
            && u.sent <= |chunks|
            && if u.sent > 0 && answer(call + u.sent - 1) != Some(true)
               then |Concat(chunks[..u.sent])| <= |stream| && u.left == stream[|Concat(chunks[..u.sent])|..]
               else u.sent < |chunks| && |stream| < |Concat(chunks[..u.sent + 1])| && u.left == []
    decreases |chunks|
  {
    hide Concat, AllAccepted;
    NothingJoined();
    var u := Rounds(answer, call, chunks, stream);
    RoundsSent(answer, call, chunks, stream);
    assert chunks[1..][..0] == [];
    if |stream| >= |chunks[0]| {
      ConcatFront(chunks, u.sent);
      if answer(call) == Some(true) {
        RoundsStop(answer, call + 1, chunks[1..], stream[|chunks[0]|..]);
      }
    }
    if u.sent < |chunks| {
      ConcatFront(chunks, u.sent + 1);
    }
  }

  lemma NothingJoined()
    ensures Concat([]) == []
  {
  }

  lemma RoundsFrom(answer: nat -> Option<bool>, call: nat, chunks: seq<seq<byte>>, part: nat, stream: seq<byte>)
    requires part < |chunks|
    ensures Rounds(answer, call, chunks[part..], stream)
            == if |stream| < |chunks[part]| then Upload(0, false, [])
               else if answer(call) != Some(true) then Upload(1, false, stream[|chunks[part]|..])
               else
                 var later := Rounds(answer, call + 1, chunks[part + 1..], stream[|chunks[part]|..]);
                 later.(sent := 1 + later.sent)
  {
    assert chunks[part..][1..] == chunks[part + 1..];
  }

  /** After `part` chunks the first `done` bytes of the stream are gone, and all of the content after the last. */
  ghost predicate Progress(stream: seq<byte>, size: nat, n: nat, chunks: seq<seq<byte>>, done: nat, part: nat,
                           left: seq<byte>)
    requires n > 0
  {
    && done <= size && done <= |stream| && left == stream[done..] && part <= |chunks|
    && (part < |chunks| ==> chunks[part..] == Chunks(Content(stream, size)[done..], n))
  }

  lemma ProgressStart(stream: seq<byte>, size: nat, n: nat)
    requires n > 0
    ensures Progress(stream, size, n, Chunks(Content(stream, size), n), 0, 0, stream)
  {
    var content := Content(stream, size);
    var chunks := Chunks(content, n);
    assert content[0..] == content && chunks[0..] == chunks && stream[0..] == stream;
  }

  lemma ChunksStep(content: seq<byte>, n: nat)
    requires n > 0
    ensures var want := if |content| < n then |content| else n;
            && Chunks(content, n)[0] == content[..want]
            && Chunks(content, n)[1..] == if |content| <= n then [] else Chunks(content[want..], n)
  {
    if |content| > n {
      assert ([content[..n]] + Chunks(content[n..], n))[1..] == Chunks(content[n..], n);
    } else {
      assert content[..|content|] == content;
    }
  }

  lemma ContentSlice(stream: seq<byte>, size: nat, done: nat, want: nat)
    requires done + want <= |stream| && done + want <= size
    ensures stream[done..][..want] == Content(stream, size)[done..done + want]
  {
  }

  /** The next chunk is the next min(remaining, n) bytes. */
  lemma NextChunk(stream: seq<byte>, size: nat, n: nat, chunks: seq<seq<byte>>, done: nat, part: nat,
                  left: seq<byte>, want: nat)
    requires n > 0 && part < |chunks| && Progress(stream, size, n, chunks, done, part, left)
    requires done <= size && want == if size - done < n then size - done else n
    ensures |chunks[part]| == want
    ensures |left| >= want ==>
              && left[..want] == chunks[part] && done + want <= size
              && Progress(stream, size, n, chunks, done + want, part + 1, left[want..])
  {
    hide Chunks, Content, Concat;
    var content := Content(stream, size);
    var rest := content[done..];
    assert chunks[part] == chunks[part..][0] && chunks[part + 1..] == chunks[part..][1..];
    ChunksStep(rest, n);
    assert |rest| == size - done && rest[..want] == content[done..done + want];
    if |left| >= want {
      assert left == stream[done..];
      ContentSlice(stream, size, done, want);
      assert left[want..] == stream[done + want..];
      assert rest[want..] == content[done + want..];
    }
  }

  /**
   * Where an upload started: the reader's stream, the sizes, the server's answers and log, and
   * how parts are labelled.
   */
  datatype Job =
    Job(stream: seq<byte>, size: nat, n: nat, answer: nat -> Option<bool>, log: seq<Part>, fileId: i64, big: bool)

  function Parts(job: Job): (chunks: seq<seq<byte>>)
    requires job.n > 0
    ensures |chunks| > 0
  {
    Chunks(Content(job.stream, job.size), job.n)
  }

  /** How an upload ended: exactly as far as Rounds goes. */
  ghost predicate Ended(job: Job, ok: bool, left: seq<byte>, saved: seq<Part>)
    requires job.n > 0
  {
    var u := Rounds(job.answer, |job.log|, Parts(job), job.stream);
    && ok == u.ok && left == u.left
    && u.sent <= |Parts(job)| && saved == job.log + Requests(job.fileId, job.big, Parts(job))[..u.sent]
  }

  /** An upload under way after `part` parts: the rounds still to come complete those of the whole. */
  ghost predicate Sending(job: Job, done: nat, part: nat, left: seq<byte>, saved: seq<Part>)
    requires job.n > 0
  {
    && Progress(job.stream, job.size, job.n, Parts(job), done, part, left)
    && part <= |Parts(job)| && saved == job.log + Requests(job.fileId, job.big, Parts(job))[..part]
    && var rest := Rounds(job.answer, |job.log| + part, Parts(job)[part..], left);
       Rounds(job.answer, |job.log|, Parts(job), job.stream) == rest.(sent := part + rest.sent)
  }

  lemma SendingStart(job: Job)
    requires job.n > 0
    ensures Sending(job, 0, 0, job.stream, job.log) && |Parts(job)| == PartCount(job.size, job.n)
  {
    hide Rounds, Requests, Progress, PartCount;
    ChunkCount(Content(job.stream, job.size), job.n);
    ProgressStart(job.stream, job.size, job.n);
    var requests := Requests(job.fileId, job.big, Parts(job));
    assert Parts(job)[0..] == Parts(job) && job.log + requests[..0] == job.log;
  }

  lemma SendingStep(job: Job, done: nat, part: nat, left: seq<byte>, saved: seq<Part>, want: nat, p: Part)
    requires job.n > 0 && part < |Parts(job)| && Sending(job, done, part, left, saved) && done <= job.size
    requires want == if job.size - done < job.n then job.size - done else job.n
    requires |left| >= want ==>
               p == Part(job.fileId, Wrap32(part), if job.big then Some(Wrap32(|Parts(job)|)) else None, left[..want])
    ensures |saved| == |job.log| + part
    ensures |left| < want ==> Ended(job, false, [], saved)
    ensures |left| >= want && job.answer(|saved|) != Some(true) ==> Ended(job, false, left[want..], saved + [p])
    ensures |left| >= want && job.answer(|saved|) == Some(true) ==>
              done + want <= job.size && Sending(job, done + want, part + 1, left[want..], saved + [p])
  {
    hide Rounds, Requests, Progress, Parts, Wrap32;
    var chunks := Parts(job);
    NextChunk(job.stream, job.size, job.n, chunks, done, part, left, want);
    RequestOf(job.fileId, job.big, chunks, part);
    RoundsFrom(job.answer, |job.log| + part, chunks, part, left);
    TakeNext(job.log, Requests(job.fileId, job.big, chunks), part);
  }

  lemma SendingEnd(job: Job, done: nat, left: seq<byte>, saved: seq<Part>)
    requires job.n > 0 && Sending(job, done, |Parts(job)|, left, saved)
    ensures Ended(job, true, left, saved)
  {
  }

  /** One round of the upload: read the next chunk, if it has bytes at all, and save it. */
  method SendPart(reader: ByteSource, server: UploadServer, size: nat, n: nat, fileId: i64, big: bool,
                  count: nat, done: nat, part: nat, ghost job: Job)
    returns (ok: bool, want: nat)
    requires n > 0 && job == Job(job.stream, size, n, server.answer, job.log, fileId, big)
    requires part < count == |Parts(job)| && done <= size
    requires Sending(job, done, part, reader.bytes, server.saved)
    modifies reader, server
    ensures !ok ==> Ended(job, false, reader.bytes, server.saved)
    ensures ok ==> done + want <= size && Sending(job, done + want, part + 1, reader.bytes, server.saved)
  {
    hide Sending, Ended, Parts, Chunks, Content, Wrap32, Rounds, Requests;
    var remaining := size - done;
    want := if remaining < n then remaining else n;
    var total := if big then Some(Wrap32(count)) else None;
    ghost var left := reader.bytes;
    ghost var p := Part(fileId, Wrap32(part), total, if |left| >= want then left[..want] else []);
    SendingStep(job, done, part, left, server.saved, want, p);
    var chunk := [];
    if want > 0 {
      var next := reader.ReadFull(want);
      if next == None {
        return false, want;
      }
      chunk := next.value;
    }
    assert reader.bytes == left[want..] && chunk == left[..want];
    var answer := server.Save(Part(fileId, Wrap32(part), total, chunk));
    ok := answer == Some(true);
  }

  /** The rounds of an upload. */
  method SendParts(reader: ByteSource, server: UploadServer, size: nat, n: nat, fileId: i64, big: bool)
    returns (ok: bool)
    requires n > 0
    modifies reader, server
    ensures Ended(Job(old(reader.bytes), size, n, server.answer, old(server.saved), fileId, big), ok,
                  reader.bytes, server.saved)
  {
    var count := PartCount(size, n);
    ghost var job := Job(reader.bytes, size, n, server.answer, server.saved, fileId, big);
    hide Sending, Ended, Parts, PartCount;
    SendingStart(job);
    var done, part := 0, 0;
    while part < count
      invariant 0 <= part <= count == |Parts(job)| && 0 <= done <= size
      invariant Sending(job, done, part, reader.bytes, server.saved)
    {
      var want;
      ok, want := SendPart(reader, server, size, n, fileId, big, count, done, part, job);
      if !ok {
        return;
      }
      done, part := done + want, part + 1;
    }
    SendingEnd(job, done, reader.bytes, server.saved);
    ok := true;
  }

  /**
   * UploadFile, for sizes on which the source's floating-point rounding up is exact: the server
   * sees the chunks of the first `size` bytes in order, each once, exactly as far as Rounds goes.
   */
  method UploadFile(reader: ByteSource, size: i64, requestedPartSize: int, fileId: i64, server: UploadServer)
    returns (parts: Option<nat>)
    requires size < 0x10_0000_0000_0000
    modifies reader, server
    ensures size < 0 ==> parts == None && server.saved == old(server.saved) && reader.bytes == old(reader.bytes)
    ensures size >= 0 ==>
              var chunks := Chunks(Content(old(reader.bytes), size), PartSize(requestedPartSize));
              var requests := Requests(fileId, size > SMALL_FILE_LIMIT, chunks);
              var u := Rounds(server.answer, |old(server.saved)|, chunks, old(reader.bytes));
              && parts == (if u.ok then Some(|chunks|) else None)
              && (u.ok <==> |old(reader.bytes)| >= size && AllAccepted(server.answer, |old(server.saved)|, |chunks|))
              && u.sent <= |chunks| && server.saved == old(server.saved) + requests[..u.sent] && reader.bytes == u.left
  {
    if size < 0 {
      return None;
    }
    var partSize := NormalizePartSize(requestedPartSize);
    ghost var job := Job(reader.bytes, size, partSize, server.answer, server.saved, fileId, size > SMALL_FILE_LIMIT);
    ghost var content := Content(reader.bytes, size);
    ChunkCount(content, partSize);
    ChunksLossless(content, partSize);
    RoundsSucceed(server.answer, |server.saved|, Parts(job), reader.bytes);
    hide Chunks, PartCount, PartSize, Content, Requests, Rounds, AllAccepted, Concat;
    var ok := SendParts(reader, server, size, partSize, fileId, size > SMALL_FILE_LIMIT);
    parts := if ok then Some(PartCount(size, partSize)) else None;
  }

  lemma RequestOf(fileId: i64, big: bool, chunks: seq<seq<byte>>, k: nat)
    requires k < |chunks|
    ensures Requests(fileId, big, chunks)[k]
            == Part(fileId, Wrap32(k), if big then Some(Wrap32(|chunks|)) else None, chunks[k])
  {
  }

  lemma TakeNext<T>(log: seq<T>, s: seq<T>, k: nat)
    requires k < |s|
    ensures log + s[..k] + [s[k]] == log + s[..k + 1]
  {
  }

  // Download.

  /** A request for part of a file. */
  datatype Fetch = Fetch(offset: nat, limit: nat)

  /** A server holding a file, with a log of the requests; a call can fail. */
  class FileServer {
    const file: seq<byte>
    const fails: nat -> bool
    var asked: seq<Fetch>

    constructor (file: seq<byte>, fails: nat -> bool)
      ensures this.file == file && this.fails == fails && asked == []
    {
      this.file, this.fails, asked := file, fails, [];
    }

    method Get(offset: nat, limit: nat) returns (part: Option<seq<byte>>)
      modifies this
      ensures asked == old(asked) + [Fetch(offset, limit)]
      ensures part == if fails(|old(asked)|) then None else Some(Slice(file, offset, limit))
    {
      part := if fails(|asked|) then None else Some(Slice(file, offset, limit));
      asked := asked + [Fetch(offset, limit)];
    }
  }

  /** Up to `limit` bytes from `offset` on. */
  function Slice(file: seq<byte>, offset: nat, limit: nat): seq<byte> {
    if offset >= |file| then []
    else file[offset..if offset + limit < |file| then offset + limit else |file|]
  }

  lemma SliceLength(file: seq<byte>, offset: nat, limit: nat)
    requires offset <= |file|
    ensures |Slice(file, offset, limit)| == if offset + limit < |file| then limit else |file| - offset
  {
  }

  /** A prefix of the file grows by any prefix of its next slice. */
  lemma NextSlice(file: seq<byte>, offset: nat, limit: nat, n: nat)
    requires offset <= |file| && n <= |Slice(file, offset, limit)|
    ensures offset + n <= |file| && file[..offset + n] == file[..offset] + Slice(file, offset, limit)[..n]
  {
    if offset < |file| {
      assert Slice(file, offset, limit)[..n] == file[offset..offset + n];
    }
  }

  /** How much of the file a download is meant to fetch. */
  function Wanted(size: nat, limit: int): nat {
    if 0 < limit < size then limit else size
  }

  /** The limit of the request at an offset: a part, or what is left of the limit if that is less. */
  function NextLimit(n: nat, limit: int, offset: nat): int {
    if limit > 0 && limit - offset < n then limit - offset else n
  }

  /** What a download does: its requests, how far it gets, and whether it succeeds. */
  datatype Download = Download(asked: seq<Fetch>, offset: nat, ok: bool)

  /** The rounds from an offset and a server call on, for a file of `size` bytes and a writer with some room. */
  function Fetches(size: nat, fails: nat -> bool, call: nat, offset: nat, n: nat, limit: int, room: nat): Download
    requires n > 0 && offset <= size
    decreases size - offset
  {
    var want := NextLimit(n, limit, offset);
    if want <= 0 then Download([], offset, true)
    else
      var got := if offset + want < size then want else size - offset;
      var one := [Fetch(offset, want)];
      if fails(call) then Download(one, offset, false)
      else if got == 0 then Download(one, offset, true)
      else if got > room then Download(one, offset + room, false)
      else if got < want then Download(one, offset + got, true)
      else
        var later := Fetches(size, fails, call + 1, offset + got, n, limit, room - got);
        later.(asked := one + later.asked)
  }

  lemma FetchesStep(size: nat, fails: nat -> bool, call: nat, offset: nat, n: nat, limit: int, room: nat)
    requires n > 0 && offset <= size
    ensures var want := NextLimit(n, limit, offset);
            Fetches(size, fails, call, offset, n, limit, room)
            == if want <= 0 then Download([], offset, true)
               else
                 var got := if offset + want < size then want else size - offset;
                 var one := [Fetch(offset, want)];
                 if fails(call) then Download(one, offset, false)
                 else if got == 0 then Download(one, offset, true)
                 else if got > room then Download(one, offset + room, false)
                 else if got < want then Download(one, offset + got, true)
                 else
                   var later := Fetches(size, fails, call + 1, offset + got, n, limit, room - got);
                   later.(asked := one + later.asked)
  {
  }

  /** None of the calls numbered from `first` up to `next` fails. */
  ghost predicate NoneFail(fails: nat -> bool, first: nat, next: nat) {
    forall k :: first <= k < next ==> !fails(k)
  }

  /** After a part that was cut to the limit nothing more is asked for. */
  lemma NothingPastLimit(size: nat, fails: nat -> bool, call: nat, offset: nat, n: nat, limit: int, room: nat)
    requires n > 0 && offset <= size
    ensures limit > 0 && offset >= limit ==> Fetches(size, fails, call, offset, n, limit, room).asked == []
  {
  }

  /** The i-th request is for the i-th part of n bytes, or for what the limit leaves of it. */
  lemma {:induction false} FetchesConsecutive(size: nat, fails: nat -> bool, call: nat, offset: nat, n: nat,
                                              limit: int, room: nat, i: nat)
    requires n > 0 && offset <= size && i < |Fetches(size, fails, call, offset, n, limit, room).asked|
    ensures n * i >= 0
    ensures var next := offset + n * i;
            && NextLimit(n, limit, next) > 0
            && Fetches(size, fails, call, offset, n, limit, room).asked[i] == Fetch(next, NextLimit(n, limit, next))
    decreases i
  {
    hide Fetches;
    FetchesStep(size, fails, call, offset, n, limit, room);
    if i == 0 {
      assert n * i == 0;
    } else {
      var want := NextLimit(n, limit, offset);
      assert 0 < want <= room && offset + want <= size;
      NothingPastLimit(size, fails, call + 1, offset + want, n, limit, room - want);
      assert want == n;
      FetchesConsecutive(size, fails, call + 1, offset + n, n, limit, room - n, i - 1);
      assert n * i == n + n * (i - 1);
    }
  }

  lemma PartsOfNothing(n: nat)
    requires n > 0
    ensures (n - 1) / n == 0
  {
    DivModUnique(n - 1, n, 0, n - 1);
  }

  lemma PartsStep(left: nat, n: nat)
    requires n > 0
    ensures left >= n ==> left / n == 1 + (left - n) / n && (left + n - 1) / n == 1 + (left - n + n - 1) / n
    ensures left < n ==> left / n == 0
    ensures 0 < left < n ==> (left + n - 1) / n == 1
  {
    if left >= n {
      DivModUnique(left, n, 1 + (left - n) / n, (left - n) % n);
      DivModUnique(left + n - 1, n, 1 + (left - 1) / n, (left - 1) % n);
    } else {
      DivModUnique(left, n, 0, left);
      if left > 0 {
        DivModUnique(left + n - 1, n, 1, left - 1);
      }
    }
  }

  /** The calls a whole download takes from an offset on: one per part, and one more to see the end of the file. */
  function CallCount(size: nat, offset: nat, n: nat, limit: int): nat
    requires n > 0 && offset <= Wanted(size, limit)
  {
    if 0 < limit <= size then (limit - offset + n - 1) / n else (size - offset) / n + 1
  }

  lemma CallCountStep(size: nat, offset: nat, n: nat, limit: int)
    requires n > 0 && offset <= Wanted(size, limit)
    ensures var want := NextLimit(n, limit, offset);
            && (want <= 0 ==> CallCount(size, offset, n, limit) == 0)
            && (want > 0 ==> CallCount(size, offset, n, limit) >= 1)
            && (want > 0 && offset + want <= size ==>
                  && offset + want <= Wanted(size, limit)
                  && CallCount(size, offset, n, limit) == 1 + CallCount(size, offset + want, n, limit))
            && (want > 0 && offset + want > size ==> CallCount(size, offset, n, limit) == 1)
  {
    PartsStep((if 0 < limit <= size then limit else size) - offset, n);
    PartsOfNothing(n);
  }

  /** No download takes more calls than a whole one, and a successful one takes exactly as many. */
  lemma {:induction false} FetchesCount(size: nat, fails: nat -> bool, call: nat, offset: nat, n: nat, limit: int,
                                        room: nat)
    requires n > 0 && offset <= Wanted(size, limit)
    ensures var d := Fetches(size, fails, call, offset, n, limit, room);
            && |d.asked| <= CallCount(size, offset, n, limit)
            && (d.ok ==> |d.asked| == CallCount(size, offset, n, limit))
    decreases size - offset
  {
    hide CallCount, Fetches;
    CallCountStep(size, offset, n, limit);
    FetchesStep(size, fails, call, offset, n, limit, room);
    var want := NextLimit(n, limit, offset);
    if want > 0 && !fails(call) && offset + want <= size && want <= room {
      FetchesCount(size, fails, call + 1, offset + want, n, limit, room - want);
    }
  }

  /** How far a download gets: never past what is wanted or the writer's room, and all of what is wanted on success. */
  lemma {:induction false} FetchesReach(size: nat, fails: nat -> bool, call: nat, offset: nat, n: nat, limit: int,
                                        room: nat)
    requires n > 0 && offset <= Wanted(size, limit)
    ensures var d := Fetches(size, fails, call, offset, n, limit, room);
            && offset <= d.offset <= Wanted(size, limit) && d.offset <= offset + room
            && (d.ok ==> d.offset == Wanted(size, limit))
            && (d.ok <==> offset + room >= Wanted(size, limit) && NoneFail(fails, call, call + |d.asked|))
    decreases size - offset
  {
    hide Fetches;
    FetchesStep(size, fails, call, offset, n, limit, room);
    var want := NextLimit(n, limit, offset);
    if want > 0 && !fails(call) && offset + want <= size && want <= room {
      FetchesReach(size, fails, call + 1, offset + want, n, limit, room - want);
    }
  }

  /**
   * A download succeeds exactly when the writer has room for all that is wanted and none of the
   * calls a whole download takes fails, and then it has gone exactly that far.
   */
  lemma FetchesMeaning(size: nat, fails: nat -> bool, call: nat, offset: nat, n: nat, limit: int, room: nat)
    requires n > 0 && offset <= Wanted(size, limit)
    ensures var d := Fetches(size, fails, call, offset, n, limit, room);
            && (d.ok <==> && offset + room >= Wanted(size, limit)
                          && NoneFail(fails, call, call + CallCount(size, offset, n, limit)))
            && (d.ok ==> d.offset == Wanted(size, limit))
  {
    hide CallCount, Fetches;
    FetchesReach(size, fails, call, offset, n, limit, room);
    FetchesCount(size, fails, call, offset, n, limit, room);
  }

  /**
   * Where a download started: the server's file and faults, the part size and limit, and what
   * was asked and written.
   */
  datatype Plan =
    Plan(file: seq<byte>, fails: nat -> bool, n: nat, limit: int, asked: seq<Fetch>, written: seq<byte>, room: nat)

  function PlanRounds(plan: Plan): Download
    requires plan.n > 0
  {
    Fetches(|plan.file|, plan.fails, |plan.asked|, 0, plan.n, plan.limit, plan.room)
  }

  /** A download under way at an offset: the rounds still to come complete those of the whole. */
  ghost predicate Fetching(plan: Plan, offset: nat, asked: seq<Fetch>, written: seq<byte>, room: nat)
    requires plan.n > 0
  {
    && offset <= |plan.file| && written == plan.written + plan.file[..offset]
    && |plan.asked| <= |asked| && asked[..|plan.asked|] == plan.asked
    && var rest := Fetches(|plan.file|, plan.fails, |asked|, offset, plan.n, plan.limit, room);
       PlanRounds(plan) == rest.(asked := asked[|plan.asked|..] + rest.asked)
  }

  /** How a download ended: exactly as the rounds say, with a prefix of the file written. */
  ghost predicate Fetched(plan: Plan, offset: nat, ok: bool, asked: seq<Fetch>, written: seq<byte>)
    requires plan.n > 0
  {
    var d := PlanRounds(plan);
    && offset == d.offset && ok == d.ok && asked == plan.asked + d.asked
    && offset <= |plan.file| && written == plan.written + plan.file[..offset]
  }

  lemma FetchingStart(plan: Plan)
    requires plan.n > 0
    ensures Fetching(plan, 0, plan.asked, plan.written, plan.room)
  {
    hide Fetches;
    var k := |plan.asked|;
    assert plan.asked[..k] == plan.asked && plan.asked[k..] == [] && plan.file[..0] == [];
    assert [] + PlanRounds(plan).asked == PlanRounds(plan).asked;
  }

  lemma FetchingEnd(plan: Plan, offset: nat, asked: seq<Fetch>, written: seq<byte>, room: nat)
    requires plan.n > 0 && Fetching(plan, offset, asked, written, room) && NextLimit(plan.n, plan.limit, offset) <= 0
    ensures Fetched(plan, offset, true, asked, written)
  {
    hide Fetches;
    FetchesStep(|plan.file|, plan.fails, |asked|, offset, plan.n, plan.limit, room);
    assert asked == plan.asked + asked[|plan.asked|..];
  }

  /** One round: a request, and what its answer and the writer's room make of it. */
  lemma FetchingStep(plan: Plan, offset: nat, asked: seq<Fetch>, written: seq<byte>, room: nat, want: nat)
    requires plan.n > 0 && Fetching(plan, offset, asked, written, room)
    requires want == NextLimit(plan.n, plan.limit, offset) && want > 0
    ensures var later, part := asked + [Fetch(offset, want)], Slice(plan.file, offset, want);
            if plan.fails(|asked|) then Fetched(plan, offset, false, later, written)
            else if part == [] then Fetched(plan, offset, true, later, written)
            else if |part| > room then Fetched(plan, offset + room, false, later, written + part[..room])
            else if |part| < want then Fetched(plan, offset + |part|, true, later, written + part)
            else Fetching(plan, offset + |part|, later, written + part, room - |part|)
  {
    hide Fetches, Slice;
    var k, later, part := |plan.asked|, asked + [Fetch(offset, want)], Slice(plan.file, offset, want);
    FetchesStep(|plan.file|, plan.fails, |asked|, offset, plan.n, plan.limit, room);
    SliceLength(plan.file, offset, want);
    NextSlice(plan.file, offset, want, |part|);
    NextSlice(plan.file, offset, want, if |part| > room then room else 0);
    assert part[..|part|] == part;
    assert later[..k] == plan.asked && later[k..] == asked[k..] + [Fetch(offset, want)];
    assert later == plan.asked + later[k..];
  }

  /** One round of the download; `more` says that it goes on. */
  method FetchPart(server: FileServer, sink: ByteSink, offset: nat, want: nat, ghost plan: Plan)
    returns (next: nat, ok: bool, more: bool)
    requires plan.n > 0 && plan.file == server.file && plan.fails == server.fails
    requires want == NextLimit(plan.n, plan.limit, offset) && want > 0
    requires Fetching(plan, offset, server.asked, sink.written, sink.room) && offset <= |plan.file|
    modifies server, sink
    ensures more ==> offset < next <= |plan.file| && Fetching(plan, next, server.asked, sink.written, sink.room)
    ensures !more ==> Fetched(plan, next, ok, server.asked, sink.written)
  {
    hide Fetching, Fetched, Slice, NextLimit;
    FetchingStep(plan, offset, server.asked, sink.written, sink.room, want);
    SliceLength(plan.file, offset, want);
    var part := server.Get(offset, want);
    if part == None {
      return offset, false, false;
    }
    if |part.value| == 0 {
      return offset, true, false;
    }
    var before := |sink.written|;
    var written := sink.Write(part.value);
    next := offset + (|sink.written| - before);
    if !written {
      return next, false, false;
    }
    if |part.value| < want {
      return next, true, false;
    }
    return next, true, true;
  }

  /**
   * DownloadFile: the requests made, how far it gets and the result are those of the rounds, and
   * what is written is always a prefix of the file.
   */
  method DownloadFile(server: FileServer, sink: ByteSink, requestedPartSize: int, limit: i64)
    returns (offset: nat, ok: bool)
    requires |server.file| <= MAX_I64
    modifies server, sink
    ensures var n := PartSize(requestedPartSize);
            Fetched(Plan(server.file, server.fails, n, limit, old(server.asked), old(sink.written), old(sink.room)),
                    offset, ok, server.asked, sink.written)
  {
    var partSize := NormalizePartSize(requestedPartSize);
    ghost var plan := Plan(server.file, server.fails, partSize, limit, server.asked, sink.written, sink.room);
    hide PartSize, Fetching, Fetched;
    FetchingStart(plan);
    offset := 0;
    while true
      invariant offset <= |plan.file| && Fetching(plan, offset, server.asked, sink.written, sink.room)
      decreases |plan.file| - offset
    {
      var want: int := partSize;
      if limit > 0 && limit - offset < want {
        want := limit - offset;
      }
      if want <= 0 {
        FetchingEnd(plan, offset, server.asked, sink.written, sink.room);
        return offset, true;
      }
      var more;
      offset, ok, more := FetchPart(server, sink, offset, want, plan);
      if !more {
        return;
      }
    }
  }
}
