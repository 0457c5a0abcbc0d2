/**
 * The resumable upload session: chunked PUTs with a Content-Range header, and a 416 answer
 * that makes the client ask where to resume.
 *
 * One client runs against a server object. A server that is not `honest` may answer anything.
 * An honest server appends a PUT only at its current length and may, between any two requests,
 * lose a suffix of what it stored.
 */
module Upload {
  import opened Collections
  import Decimal
  import opened Limits
  import opened Numbers

  /** One PUT request: `Content-Range: bytes first-last/total` and its body. */
  datatype Put = Put(first: nat, last: nat, total: nat, body: seq<byte>)

  datatype PutReply =
    | Accepted
    | Done(item: Option<string>)
    | RangeNotSatisfiable
    | OtherStatus(code: nat)
    | PutLost

  datatype StateReply =
    | Ranges(expected: seq<string>)
    | Unreadable
    | GetLost

  /** A request with its answer. */
  datatype Exchange = PutSent(put: Put, reply: PutReply) | GetSent(state: StateReply)

  datatype UploadError = Network | Decode | InvalidRange | Transient

  /** The u64 subtraction `end - 1`; zero wraps around (and panics in a debug build). */
  function LastByte(end: nat): nat
  {
    if end == 0 then U64_LIMIT - 1 else end - 1
  }

  /** `range_str.split('-').next()?.parse().ok()`. */
  function ParseRangeStart(range: string): Option<nat>
  {
    Decimal.ParseU64(BeforeDash(range))
  }

  function BeforeDash(range: string): string
  {
    if range == "" || range[0] == '-' then "" else [range[0]] + BeforeDash(range[1..])
  }

  lemma {:induction false} BeforeDashStops(head: string, tail: string)
    requires '-' !in head
    ensures BeforeDash(head + "-" + tail) == head
  {
    if head == "" {
      assert (head + "-" + tail)[0] == '-';
    } else {
      BeforeDashStops(head[1..], tail);
      assert (head + "-" + tail)[1..] == head[1..] + "-" + tail;
    }
  }

  /** A range that starts with the printed offset is read back as that offset. */
  lemma {:induction false} RangeRoundTrip(start: nat, tail: string)
    requires start < U64_LIMIT
    ensures ParseRangeStart(Decimal.Print(start) + "-" + tail) == Some(start)
  {
    Decimal.PrintValue(start);
    assert '-' !in Decimal.Print(start);
    BeforeDashStops(Decimal.Print(start), tail);
    Decimal.ParseInvertsPrint(start);
  }

  /** So is a range without a dash. */
  lemma {:induction false} BareRangeRoundTrip(start: nat)
    requires start < U64_LIMIT
    ensures ParseRangeStart(Decimal.Print(start)) == Some(start)
  {
    Decimal.PrintValue(start);
    assert '-' !in Decimal.Print(start);
    NoDash(Decimal.Print(start));
    Decimal.ParseInvertsPrint(start);
  }

  lemma {:induction false} NoDash(range: string)
    requires '-' !in range
    ensures BeforeDash(range) == range
  {
    if range != "" {
      NoDash(range[1..]);
    }
  }

  // ---------------------------------------------------------------- the server

  /** How an honest server that stores `stored` answers a PUT, and what it stores afterwards. */
  function HonestPut(stored: seq<byte>, p: Put, item: Option<string>): (PutReply, seq<byte>)
  {
    if p.body == [] || p.last + 1 != p.first + |p.body| || p.last >= p.total then
      (OtherStatus(400), stored)
    else if p.first != |stored| then
      (RangeNotSatisfiable, stored)
    else if p.last + 1 == p.total then
      (Done(item), stored + p.body)
    else
      (Accepted, stored + p.body)
  }

  class Server {
    const honest: bool
    const item: string
    var held: seq<byte>
    ghost var rollbacks: nat
    ghost var puts: seq<Put>
    ghost var exchanges: seq<Exchange>

    constructor (honest: bool, item: string)
      ensures this.honest == honest && this.item == item
      ensures held == [] && rollbacks == 0 && puts == [] && exchanges == []
    {
      this.honest, this.item := honest, item;
      held, rollbacks, puts, exchanges := [], 0, [], [];
    }

    /** Forgets a suffix of the stored bytes, or nothing. */
    method LoseSuffix()
      modifies `held, `rollbacks
      ensures held <= old(held)
      ensures rollbacks == old(rollbacks) + if held == old(held) then 0 else 1
    {
      var keep: nat :| keep <= |held|;
      if keep < |held| {
        held, rollbacks := held[..keep], rollbacks + 1;
      }
    }

    /** Answers one PUT; `stored` is what was left of `held` when the request arrived. */
    method ReceivePut(p: Put) returns (reply: PutReply, ghost stored: seq<byte>)
      modifies this
      ensures puts == old(puts) + [p] && exchanges == old(exchanges) + [PutSent(p, reply)]
      ensures honest ==>
        && stored <= old(held)
        && rollbacks == old(rollbacks) + (if stored == old(held) then 0 else 1)
        && (reply, held) == HonestPut(stored, p, Some(item))
    {
      puts := puts + [p];
      LoseSuffix();
      stored := held;
      if honest {
        var answer := HonestPut(held, p, Some(item));
        reply, held := answer.0, answer.1;
      } else {
        reply, held := *, *;
      }
      exchanges := exchanges + [PutSent(p, reply)];
    }

    /** Answers the session re-query with the ranges still expected. */
    method ReceiveGet() returns (reply: StateReply, ghost tail: string)
      modifies `held, `rollbacks, `exchanges
      ensures exchanges == old(exchanges) + [GetSent(reply)]
      ensures honest ==>
        && held <= old(held)
        && rollbacks == old(rollbacks) + (if held == old(held) then 0 else 1)
        && reply == Ranges([Decimal.Print(|held|) + "-" + tail])
    {
      if honest {
        LoseSuffix();
        var rest: string := *;
        reply, tail := Ranges([Decimal.Print(|held|) + "-" + rest]), rest;
      } else {
        reply, tail := *, "";
      }
      exchanges := exchanges + [GetSent(reply)];
    }
  }

  // ---------------------------------------------------------------- the client

  /** Absolute offset of the first byte of chunk `i`. */
  function ChunkStart(chunks: seq<seq<byte>>, i: nat): nat
    requires i <= |chunks|
  {
    |Flatten(chunks[..i])|
  }

  lemma {:induction false} ChunkAt(chunks: seq<seq<byte>>, i: nat)
    requires i < |chunks|
    ensures ChunkStart(chunks, i + 1) == ChunkStart(chunks, i) + |chunks[i]| <= |Flatten(chunks)|
    ensures Flatten(chunks)[ChunkStart(chunks, i)..ChunkStart(chunks, i + 1)] == chunks[i]
  {
    assert chunks[..i + 1][..i] == chunks[..i];
    FlattenPrefix(chunks, i + 1);
  }

  /** The rest of chunk `i` from `offset` on is the same stretch of the whole file. */
  lemma ChunkTail(chunks: seq<seq<byte>>, i: nat, offset: nat) returns (body: seq<byte>)
    requires i < |chunks|
    requires ChunkStart(chunks, i) <= offset <= ChunkStart(chunks, i) + |chunks[i]|
    ensures body == chunks[i][offset - ChunkStart(chunks, i)..]
    ensures offset + |body| == ChunkStart(chunks, i + 1) <= |Flatten(chunks)|
    ensures body == Flatten(chunks)[offset..offset + |body|]
  {
    ChunkAt(chunks, i);
    body := chunks[i][offset - ChunkStart(chunks, i)..];
    assert forall k :: 0 <= k < |body| ==>
      body[k] == Flatten(chunks)[ChunkStart(chunks, i)..ChunkStart(chunks, i + 1)][offset - ChunkStart(chunks, i) + k];
  }

  /** Where the client stands: `offset` lies in chunk `index`, which begins at `start`. */
  ghost predicate Position(chunks: seq<seq<byte>>, offset: nat, index: nat, start: nat)
  {
    && index <= |chunks| && start == ChunkStart(chunks, index)
    && (index < |chunks| ==> start <= offset <= start + |chunks[index]|)
    && (index < |chunks| && chunks[index] != [] ==> offset < start + |chunks[index]|)
  }

  lemma PositionBounds(chunks: seq<seq<byte>>, offset: nat, index: nat, start: nat)
    requires Position(chunks, offset, index, start)
    ensures index <= |chunks| && (index < |chunks| ==> start <= offset <= start + |chunks[index]|)
  {
  }

  /** The chunk that contains `target`, and the offset at which that chunk begins. */
  method FindChunkIndex(chunks: seq<seq<byte>>, target: nat) returns (index: nat, start: nat)
    ensures Position(chunks, target, index, start)
    ensures index < |chunks| <==> target < |Flatten(chunks)|
    ensures index < |chunks| ==> chunks[index] != []
  {
    index, start := 0, 0;
    while index < |chunks|
      invariant index <= |chunks| && start == ChunkStart(chunks, index) <= target
    {
      ChunkAt(chunks, index);
      if target < start + |chunks[index]| {
        return;
      }
      start, index := start + |chunks[index]|, index + 1;
    }
    assert chunks[..|chunks|] == chunks;
  }

  /** The request carries exactly the bytes of `data` that its header names. */
  ghost predicate FramesItsBody(data: seq<byte>, total: nat, p: Put)
  {
    && p.first + |p.body| <= |data|
    && p.body == data[p.first..p.first + |p.body|]
    && p.total == total
    && (p.last + 1 == p.first + |p.body| <==> p.first + |p.body| > 0)
  }

  ghost predicate AllNonEmpty(chunks: seq<seq<byte>>)
  {
    forall i :: 0 <= i < |chunks| ==> chunks[i] != []
  }

  /** Requests that `rounds` passes over `n` chunks can send: the product, kept linear for the loop. */
  ghost function Quota(rounds: nat, n: nat): nat
  {
    if rounds == 0 then 0 else Quota(rounds - 1, n) + n
  }

  /** All requests: one pass over the chunks to begin with, and one for each resume. */
  ghost function RequestBound(n: nat): nat
  {
    (RETRY_MAX_ATTEMPTS + 1) * n
  }

  lemma QuotaMonotone(rounds: nat, n: nat)
    requires rounds < RETRY_MAX_ATTEMPTS + 1
    ensures Quota(rounds, n) == if rounds == 0 then 0 else Quota(rounds - 1, n) + n
    ensures Quota(rounds, n) + n <= RequestBound(n)
  {
    QuotaIsProduct(rounds, n);
  }

  lemma {:induction false} QuotaIsProduct(rounds: nat, n: nat)
    ensures Quota(rounds, n) == rounds * n
  {
    if rounds > 0 {
      QuotaIsProduct(rounds - 1, n);
    }
  }

  /** Every request so far frames its body; an empty body can only come from an empty chunk. */
  ghost predicate Framed(chunks: seq<seq<byte>>, total: nat, puts: seq<Put>)
  {
    forall p :: p in puts ==>
      FramesItsBody(Flatten(chunks), total, p) && (AllNonEmpty(chunks) ==> p.body != [])
  }

  /** The next request frames its body, and what an acknowledgement of it means. */
  lemma {:induction false} NextPut(chunks: seq<seq<byte>>, total: nat, puts: seq<Put>, offset: nat, index: nat,
                                   start: nat, put: Put)
    requires Position(chunks, offset, index, start) && index < |chunks|
    requires Framed(chunks, total, puts)
    requires put.body == chunks[index][offset - start..]
    requires put == Put(offset, LastByte(offset + |put.body|), total, put.body)
    ensures Framed(chunks, total, puts + [put]) && FramesItsBody(Flatten(chunks), total, put)
    ensures AllNonEmpty(chunks) ==> put.body != []
    ensures offset + |put.body| == start + |chunks[index]| <= |Flatten(chunks)|
    ensures Position(chunks, offset + |put.body|, index + 1, offset + |put.body|)
    ensures offset + |put.body| < |Flatten(chunks)| ==> index + 1 < |chunks|
    ensures put.body == Flatten(chunks)[offset..offset + |put.body|]
  {
    var body := ChunkTail(chunks, index, offset);
    assert put.body == body;
    if index + 1 == |chunks| {
      assert chunks[..index + 1] == chunks;
    }
  }

  /**
   * What the client may rely on from an honest server: it holds a prefix of the file, and every
   * resume, as well as a present disagreement about the offset, is paid for by a lost suffix.
   */
  ghost predicate InStep(data: seq<byte>, held: seq<byte>, rollbacks: nat, offset: nat, resumes: nat)
  {
    held <= data && resumes <= rollbacks && (offset != |held| ==> resumes < rollbacks)
  }

  /** One request to an honest server, by kind of answer. */
  lemma HonestExchange(data: seq<byte>, held: seq<byte>, rollbacks: nat, resumes: nat, put: Put,
                       stored: seq<byte>, rollbacks': nat, item: Option<string>)
    requires InStep(data, held, rollbacks, put.first, resumes)
    requires FramesItsBody(data, put.total, put)
    requires stored <= held && rollbacks' == rollbacks + (if stored == held then 0 else 1)
    ensures var (reply, held') := HonestPut(stored, put, item);
      match reply
      case Accepted =>
        held' <= data && |held'| == put.first + |put.body| < put.total && resumes <= rollbacks'
      case RangeNotSatisfiable => held' <= held && resumes < rollbacks'
      case Done(i) => held' <= data && |held'| == put.total && i == item
      case _ => put.body == [] || put.first + |put.body| > put.total
  {
  }

  /** Sends one PUT; for an honest server the answer means what `HonestExchange` says. */
  method SendPut(server: Server, put: Put, ghost data: seq<byte>, ghost resumes: nat) returns (reply: PutReply)
    requires FramesItsBody(data, put.total, put)
    requires server.honest ==> InStep(data, server.held, server.rollbacks, put.first, resumes)
    modifies server
    ensures server.puts == old(server.puts) + [put]
    ensures server.exchanges == old(server.exchanges) + [PutSent(put, reply)]
    ensures server.honest ==>
      match reply
      case Accepted =>
        && InStep(data, server.held, server.rollbacks, put.first + |put.body|, resumes)
        && |server.held| == put.first + |put.body| < put.total
      case RangeNotSatisfiable =>
        && InStep(data, server.held, server.rollbacks, |server.held|, resumes + 1)
        && |server.held| <= |old(server.held)| && resumes < server.rollbacks
      case Done(i) =>
        server.held <= data && |server.held| == put.total && i == Some(server.item)
      case OtherStatus(_) =>
        put.body == [] || put.first + |put.body| > put.total
      case PutLost => false
  {
    ghost var held, rollbacks := server.held, server.rollbacks;
    ghost var stored;
    reply, stored := server.ReceivePut(put);
    if server.honest {
      HonestExchange(data, held, rollbacks, resumes, put, stored, server.rollbacks, Some(server.item));
    }
  }

  /** An offset, the chunk that contains it and the offset at which that chunk begins. */
  datatype Cursor = Cursor(offset: nat, index: nat, start: nat)

  /** Where the server says to go on. */
  function StartOf(state: StateReply): Option<nat>
  {
    match state
    case Ranges(expected) => if expected == [] then None else ParseRangeStart(expected[0])
    case _ => None
  }

  /** Why there is no such place. */
  function ResumeError(state: StateReply): UploadError
  {
    if state.GetLost? then Network else if state.Unreadable? then Decode else InvalidRange
  }

  // ---------------------------------------------------------------- what a session comes to

  /** How often the server did not accept the range. */
  function Refusals(log: seq<Exchange>): nat
  {
    if log == [] then 0
    else
      var last := log[|log| - 1];
      Refusals(log[..|log| - 1]) + if last.PutSent? && last.reply.RangeNotSatisfiable? then 1 else 0
  }

  /** The next upload is to begin at `offset`: at the start, behind the last one, or where the server said. */
  predicate GoesOnAt(log: seq<Exchange>, offset: nat)
  {
    if log == [] then offset == 0
    else
      match log[|log| - 1]
      case PutSent(p, reply) => reply.Accepted? && offset == p.first + |p.body|
      case GetSent(state) => StartOf(state) == Some(offset)
  }

  /** The last upload was refused because of its range. */
  predicate IsRefused(log: seq<Exchange>)
  {
    log != [] && log[|log| - 1].PutSent? && log[|log| - 1].reply.RangeNotSatisfiable?
  }

  /** An upload begins where it should, and the server is asked for its state after a refusal only. */
  predicate MayFollow(log: seq<Exchange>, e: Exchange)
  {
    match e
    case PutSent(p, _) => GoesOnAt(log, p.first)
    case GetSent(_) => IsRefused(log)
  }

  ghost predicate InOrder(log: seq<Exchange>)
  {
    forall k :: 0 <= k < |log| ==> MayFollow(log[..k], log[k])
  }

  lemma {:induction false} InOrderGrows(log: seq<Exchange>, e: Exchange)
    requires InOrder(log)
    requires MayFollow(log, e)
    ensures InOrder(log + [e])
    ensures Refusals(log + [e]) == Refusals(log) + if e.PutSent? && e.reply.RangeNotSatisfiable? then 1 else 0
  {
    hide MayFollow;
    assert (log + [e])[..|log|] == log;
    forall k | 0 <= k < |log| ensures (log + [e])[..k] == log[..k] {
    }
  }

  /**
   * What the last answer means for the result. An upload of `size` bytes fails to decode an item
   * also when it runs out of bytes to send.
   */
  ghost predicate Explains(log: seq<Exchange>, size: nat, r: Result<Option<string>, UploadError>)
  {
    if log == [] then r == Err(Decode) && size == 0
    else
      match log[|log| - 1]
      case PutSent(_, Done(Some(item))) => r == Ok(Some(item))
      case PutSent(_, Done(None)) => r == Err(Decode)
      case PutSent(_, PutLost) => r == Err(Network)
      case PutSent(_, OtherStatus(_)) => r == Err(Transient)
      case PutSent(_, RangeNotSatisfiable) => r == Err(InvalidRange) && Refusals(log) == RETRY_MAX_ATTEMPTS + 1
      case PutSent(p, Accepted) => r == Err(Decode) && p.first + |p.body| >= size
      case GetSent(GetLost) => r == Err(Network)
      case GetSent(Unreadable) => r == Err(Decode)
      case GetSent(state) =>
        if StartOf(state).None? then r == Err(InvalidRange) else r == Err(Decode) && StartOf(state).value >= size
  }

  /** An upload at `offset` can follow, after this many refusals. */
  ghost predicate Underway(log: seq<Exchange>, offset: nat, refusals: nat)
  {
    InOrder(log) && GoesOnAt(log, offset) && Refusals(log) == refusals
  }

  /** What an answer to an upload makes of the session. */
  lemma AfterPut(log: seq<Exchange>, refusals: nat, p: Put, reply: PutReply, size: nat)
    requires Underway(log, p.first, refusals)
    ensures
      var log' := log + [PutSent(p, reply)];
      && InOrder(log') && Refusals(log') == refusals + (if reply.RangeNotSatisfiable? then 1 else 0)
      && (reply.Accepted? ==> Underway(log', p.first + |p.body|, refusals))
      && (reply.Accepted? && p.first + |p.body| >= size ==> Explains(log', size, Err(Decode)))
      && (reply.PutLost? ==> Explains(log', size, Err(Network)))
      && (reply.OtherStatus? ==> Explains(log', size, Err(Transient)))
      && (reply.Done? ==> Explains(log', size, if reply.item.Some? then Ok(reply.item) else Err(Decode)))
      && (reply.RangeNotSatisfiable? && refusals == RETRY_MAX_ATTEMPTS ==> Explains(log', size, Err(InvalidRange)))
  {
    hide InOrder, Refusals;
    InOrderGrows(log, PutSent(p, reply));
  }

  /** What the server's state makes of a session whose last upload was refused. */
  lemma {:induction false} AfterGet(log: seq<Exchange>, p: Put, state: StateReply, size: nat)
    requires InOrder(log) && log != [] && log[|log| - 1] == PutSent(p, RangeNotSatisfiable)
    ensures
      var log', start := log + [GetSent(state)], StartOf(state);
      && InOrder(log') && Refusals(log') == Refusals(log)
      && (start.None? ==> Explains(log', size, Err(ResumeError(state))))
      && (start.Some? ==> Underway(log', start.value, Refusals(log)))
      && (start.Some? && start.value >= size ==> Explains(log', size, Err(Decode)))
  {
    hide InOrder, Refusals, ParseRangeStart;
    InOrderGrows(log, GetSent(state));
  }

  lemma NothingSent(size: nat)
    ensures Underway([], 0, 0) && (size == 0 ==> Explains([], size, Err(Decode)))
  {
  }

  /** Re-queries the session after a 416: where to resume from, or why there is no such place. */
  method ResumePoint(server: Server, chunks: seq<seq<byte>>, ghost resumes: nat) returns (r: Result<Cursor, UploadError>)
    requires |Flatten(chunks)| < U64_LIMIT
    requires server.honest ==> InStep(Flatten(chunks), server.held, server.rollbacks, |server.held|, resumes)
    requires InOrder(server.exchanges) && IsRefused(server.exchanges)
    modifies server`held, server`rollbacks, server`exchanges
    ensures InOrder(server.exchanges) && Refusals(server.exchanges) == Refusals(old(server.exchanges))
    ensures r.Ok? ==>
      && Position(chunks, r.value.offset, r.value.index, r.value.start) && GoesOnAt(server.exchanges, r.value.offset)
      && (r.value.index >= |chunks| ==> Explains(server.exchanges, |Flatten(chunks)|, Err(Decode)))
    ensures r.Err? ==> Explains(server.exchanges, |Flatten(chunks)|, Err(r.error))
    ensures server.honest ==>
      && |server.held| <= |old(server.held)| && server.rollbacks >= old(server.rollbacks)
      && r.Ok? && r.value.offset == |server.held|
      && InStep(Flatten(chunks), server.held, server.rollbacks, r.value.offset, resumes)
      && (|server.held| < |Flatten(chunks)| ==> r.value.index < |chunks|)
  {
    hide InOrder, Refusals, Explains, GoesOnAt, Flatten;
    ghost var log := server.exchanges;
    var state, tail := server.ReceiveGet();
    AfterGet(log, log[|log| - 1].put, state, |Flatten(chunks)|);
    if state.GetLost? {
      return Err(Network);
    } else if state.Unreadable? {
      return Err(Decode);
    }
    if server.honest {
      RangeRoundTrip(|server.held|, tail);
    }
    if state.expected == [] || ParseRangeStart(state.expected[0]).None? {
      return Err(InvalidRange);
    }
    var offset := ParseRangeStart(state.expected[0]).value;
    var index, start := FindChunkIndex(chunks, offset);
    return Ok(Cursor(offset, index, start));
  }

  lemma {:induction false} AtStart(chunks: seq<seq<byte>>, total: nat)
    ensures Position(chunks, 0, 0, 0) && Framed(chunks, total, [])
    ensures |Flatten(chunks)| == 0 ==> !(chunks != [] && AllNonEmpty(chunks))
    ensures chunks == [] ==> |Flatten(chunks)| == 0
    ensures InStep(Flatten(chunks), [], 0, 0, 0)
  {
    assert chunks[..0] == [];
    if chunks != [] {
      ChunkAt(chunks, 0);
    }
  }

  /**
   * Uploads `chunks` as a file of `totalSize` bytes.
   *
   * Framing and request bound hold against every server; the safety and liveness clauses speak
   * of an honest one.
   */
  method UploadSession(server: Server, totalSize: nat, chunks: seq<seq<byte>>)
    returns (r: Result<Option<string>, UploadError>)
    requires |Flatten(chunks)| < U64_LIMIT
    requires server.held == [] && server.puts == [] && server.exchanges == [] && server.rollbacks == 0
    modifies server
    // Framing of every request.
    ensures Framed(chunks, totalSize, server.puts)
    // The course of the session, and what its result stands for.
    ensures InOrder(server.exchanges) && Refusals(server.exchanges) <= RETRY_MAX_ATTEMPTS + 1
    ensures Explains(server.exchanges, |Flatten(chunks)|, r)
    // Bound on the number of requests.
    ensures |server.puts| <= RequestBound(|chunks|)
    // Safety: a success means that the server holds the announced number of leading bytes.
    ensures server.honest && r.Ok? ==>
      server.held <= Flatten(chunks) && |server.held| == totalSize && r.value == Some(server.item)
    ensures server.honest && r.Ok? && totalSize == |Flatten(chunks)| ==> server.held == Flatten(chunks)
    // Liveness: few enough lost suffixes cannot prevent success.
    ensures
      (&& server.honest && server.rollbacks <= RETRY_MAX_ATTEMPTS && totalSize == |Flatten(chunks)|
       && chunks != [] && AllNonEmpty(chunks)) ==> r.Ok?
    ensures chunks == [] ==> r == Err(Decode)
  {
    hide InOrder, Refusals, GoesOnAt, Explains, StartOf, ResumeError, Framed, FramesItsBody, Flatten,
         ChunkStart, AllNonEmpty, Quota, RequestBound, LastByte, Position, InStep;
    ghost var data := Flatten(chunks);
    AtStart(chunks, totalSize);
    NothingSent(|data|);
    ghost var healthy := server.honest && totalSize == |data| && chunks != [] && AllNonEmpty(chunks);
    var offset: nat, chunkIndex: nat, chunkStart: nat, resumeAttempts: nat := 0, 0, 0, 0;
    QuotaMonotone(0, |chunks|);
    // What remains the result when the chunks run out before the final answer.
    r := Err(Decode);
    while chunkIndex < |chunks|
      invariant r == Err(Decode)
      invariant chunkIndex <= |chunks| && Position(chunks, offset, chunkIndex, chunkStart)
      invariant resumeAttempts <= RETRY_MAX_ATTEMPTS
      invariant |server.puts| <= Quota(resumeAttempts, |chunks|) + chunkIndex
      invariant Quota(resumeAttempts, |chunks|) + |chunks| <= RequestBound(|chunks|)
      invariant Framed(chunks, totalSize, server.puts)
      invariant Underway(server.exchanges, offset, resumeAttempts)
      invariant chunkIndex == |chunks| ==> Explains(server.exchanges, |data|, Err(Decode))
      invariant server.honest ==> InStep(data, server.held, server.rollbacks, offset, resumeAttempts)
      invariant healthy ==> |server.held| < |data| && chunkIndex < |chunks|
      decreases RETRY_MAX_ATTEMPTS - resumeAttempts, |chunks| - chunkIndex
    {
      PositionBounds(chunks, offset, chunkIndex, chunkStart);
      var chunk := chunks[chunkIndex];
      var body := chunk[offset - chunkStart..];
      var put := Put(offset, LastByte(offset + |body|), totalSize, body);
      NextPut(chunks, totalSize, server.puts, offset, chunkIndex, chunkStart, put);
      ghost var log := server.exchanges;
      var reply := SendPut(server, put, data, resumeAttempts);
      AfterPut(log, resumeAttempts, put, reply, |data|);
      match reply {
        case PutLost =>
          r := Err(Network);
          break;
        case RangeNotSatisfiable =>
          resumeAttempts := resumeAttempts + 1;
          if resumeAttempts > RETRY_MAX_ATTEMPTS {
            r := Err(InvalidRange);
            break;
          }
          var resume := ResumePoint(server, chunks, resumeAttempts);
          if resume.Err? {
            r := Err(resume.error);
            break;
          }
          QuotaMonotone(resumeAttempts, |chunks|);
          PositionBounds(chunks, resume.value.offset, resume.value.index, resume.value.start);
          offset, chunkIndex, chunkStart := resume.value.offset, resume.value.index, resume.value.start;
        case Accepted =>
          offset := offset + |body|;
          if offset >= chunkStart + |chunk| {
            chunkIndex, chunkStart := chunkIndex + 1, offset;
          }
        case Done(item) =>
          r := if item.Some? then Ok(item) else Err(Decode);
          break;
        case OtherStatus(_) =>
          r := Err(Transient);
          break;
      }
    }
  }
}
