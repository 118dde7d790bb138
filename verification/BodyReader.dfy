/** `readRequestBody`: a bounded read loop over an `io.Reader` that may deliver any count and any
    error for each offered size. */
module BodyReader {
  import opened Options
  import opened Utf8

  const MAX_BODY := 8 * 1024 * 1024
  const MAX_RETAINED := MAX_BODY + 1
  const BUFFER := 32 * 1024
  const MAX_STALLS := 100

  datatype ReadError = EOF | Failure(code: int)

  // What one Read returns: the bytes it counted with an optional error, or a negative count.
  datatype Reply = Bytes(chunk: seq<Byte>, error: Option<ReadError>) | Negative(error: Option<ReadError>)

  datatype Result =
    | Body(bytes: seq<Byte>)
    | TooLarge
    | BadCount
    | NoProgress
    | Failed(code: int)

  // The answer to the n-th call for an offered size.
  type Behaviour = (nat, nat) -> Reply

  /** A reader answers calls in turn; nothing else is assumed of it. */
  class Reader {
    const behaviour: Behaviour
    var calls: nat

    constructor (behaviour: Behaviour)
      ensures calls == 0 && this.behaviour == behaviour
    {
      this.behaviour := behaviour;
      calls := 0;
    }

    // `reader.Read(buffer[:offered])`
    method Read(buffer: array<Byte>, offered: nat) returns (n: int, error: Option<ReadError>)
      requires 0 < offered <= buffer.Length
      modifies this, buffer
      ensures calls == old(calls) + 1
      ensures var reply := behaviour(old(calls), offered);
        error == reply.error && n == Count(reply)
        && (0 <= n <= offered ==> buffer[..n] == reply.chunk)
    {
      var reply := behaviour(calls, offered);
      calls := calls + 1;
      n, error := Count(reply), reply.error;
      if 0 <= n <= offered {
        for i := 0 to n
          modifies buffer
          invariant forall j :: 0 <= j < i ==> buffer[j] == reply.chunk[j]
        {
          buffer[i] := reply.chunk[i];
        }
      }
    }
  }

  function Count(reply: Reply): int {
    if reply.Bytes? then |reply.chunk| else -1
  }

  function Offered(retained: nat): nat
    requires retained <= MAX_RETAINED
  {
    if MAX_RETAINED - retained < BUFFER then MAX_RETAINED - retained else BUFFER
  }

  // ---- the loop as a function of the reader ----

  datatype Progress = Reading(body: seq<Byte>, stalls: nat) | Done(result: Result)

  predicate Within(p: Progress) {
    p.Reading? ==> |p.body| <= MAX_BODY && p.stalls < MAX_STALLS
  }

  function AfterError(body: seq<Byte>, stalls: nat, error: Option<ReadError>): Progress {
    match error
    case None => Reading(body, stalls)
    case Some(EOF) => Done(Body(body))
    case Some(Failure(code)) => Done(Failed(code))
  }

  function Step(p: Progress, reply: Reply): (q: Progress)
    requires Within(p)
    ensures Within(q)
  {
    if p.Done? then p
    else if Count(reply) < 0 || Count(reply) > Offered(|p.body|) then Done(BadCount)
    else if Count(reply) > 0 then
      var body := p.body + reply.chunk;
      if |body| > MAX_BODY then Done(TooLarge) else AfterError(body, 0, reply.error)
    else if reply.error.None? then
      (if p.stalls + 1 >= MAX_STALLS then Done(NoProgress) else Reading(p.body, p.stalls + 1))
    else AfterError(p.body, p.stalls, reply.error)
  }

  function BytesLeft(p: Progress): nat
    requires Within(p)
  {
    if p.Reading? then MAX_RETAINED - |p.body| else 0
  }

  function StallsLeft(p: Progress): nat
    requires Within(p)
  {
    if p.Reading? then MAX_STALLS - p.stalls else 0
  }

  // Reading on from the given call: the result, and how many calls the reader has answered then.
  function Drain(behaviour: Behaviour, call: nat, p: Progress): (Result, nat)
    requires Within(p)
    decreases BytesLeft(p), StallsLeft(p)
  {
    match p
    case Done(result) => (result, call)
    case Reading(body, _) => Drain(behaviour, call + 1, Step(p, behaviour(call, Offered(|body|))))
  }

  // Everything the loop asks of a reader, from its first call on.
  function Read(behaviour: Behaviour, first: nat): (Result, nat) {
    Drain(behaviour, first, Reading([], 0))
  }

  function Min(a: int, b: int): int { if a < b then a else b }
  function Max(a: int, b: int): int { if a < b then b else a }

  /** The loop with its growing buffer. It ends against every reader, with what this reader's
      answers amount to; the buffer always holds what is needed and never more than one byte past
      the limit; growth copies fewer than two limits' worth of bytes. The source's `remaining == 0`
      branch is dead: `remaining` stays positive. */
  method ReadRequestBody(reader: Reader) returns (result: Result, ghost copied: nat, ghost capacity: nat)
    modifies reader
    ensures (result, reader.calls) == Read(reader.behaviour, old(reader.calls))
    ensures copied < 2 * 8388609
    ensures capacity <= 8388609 && (result.Body? ==> |result.bytes| <= capacity)
  {
    hide Step, Drain;
    var request := new Byte[BUFFER];
    var length := 0;
    var buffer := new Byte[BUFFER];
    var stalls := 0;
    copied, capacity := 0, BUFFER;
    assert request[..length] == [];
    while true
      invariant fresh(request) && fresh(buffer) && buffer != request && buffer.Length == BUFFER
      invariant 0 <= length <= request.Length <= MAX_RETAINED
      invariant length <= MAX_BODY && stalls < MAX_STALLS
      invariant Drain(reader.behaviour, reader.calls, Reading(request[..length], stalls)) ==
                Read(reader.behaviour, old(reader.calls))
      invariant BUFFER <= request.Length
      invariant if request.Length < MAX_RETAINED then copied <= request.Length - BUFFER
                else copied < 2 * MAX_RETAINED
      decreases MAX_RETAINED - length, MAX_STALLS - stalls
    {
      var remaining := MAX_RETAINED - length;
      assert remaining > 0;
      var offered := Min(remaining, buffer.Length);
      ghost var body, reply := request[..length], reader.behaviour(reader.calls, offered);
      DrainStep(reader.behaviour, reader.calls, body, stalls);
      StepCases(body, stalls, reply);
      var n, error := reader.Read(buffer, offered);
      if n < 0 || n > offered {
        return BadCount, copied, request.Length;
      }
      if n > 0 {
        var needed := length + n;
        ghost var moved;
        request, moved := Append(request, length, buffer, n);
        copied := copied + moved;
        length := needed;
        stalls := 0;
        if length > MAX_BODY {
          return TooLarge, copied, request.Length;
        }
      } else if error.None? {
        stalls := stalls + 1;
        if stalls >= MAX_STALLS {
          return NoProgress, copied, request.Length;
        }
      }
      if error == Some(EOF) {
        return Body(request[..length]), copied, request.Length;
      }
      if error.Some? {
        return Failed(error.value.code), copied, request.Length;
      }
    }
  }

  lemma DrainStep(behaviour: Behaviour, call: nat, body: seq<Byte>, stalls: nat)
    requires Within(Reading(body, stalls))
    ensures var p := Step(Reading(body, stalls), behaviour(call, Offered(|body|)));
      Drain(behaviour, call, Reading(body, stalls)) == Drain(behaviour, call + 1, p)
      && (p.Done? ==> Drain(behaviour, call, Reading(body, stalls)) == (p.result, call + 1))
  {
    hide Step;
  }

  lemma StepCases(body: seq<Byte>, stalls: nat, reply: Reply)
    requires Within(Reading(body, stalls))
    ensures var p, n := Step(Reading(body, stalls), reply), Count(reply);
      (n < 0 || n > Offered(|body|) ==> p == Done(BadCount))
      && (0 < n <= Offered(|body|) && |body| + n > MAX_BODY ==> p == Done(TooLarge))
      && (0 < n <= Offered(|body|) && |body| + n <= MAX_BODY ==>
            p == AfterError(body + reply.chunk, 0, reply.error))
      && (n == 0 && reply.error.None? && stalls + 1 >= MAX_STALLS ==> p == Done(NoProgress))
      && (n == 0 && reply.error.None? && stalls + 1 < MAX_STALLS ==> p == Reading(body, stalls + 1))
      && (n == 0 && reply.error.Some? ==> p == AfterError(body, stalls, reply.error))
  {
  }

  /** Append the delivered bytes, doubling the capacity up to the retained limit when it is short. */
  method Append(request: array<Byte>, length: nat, buffer: array<Byte>, n: nat)
    returns (grown: array<Byte>, ghost moved: nat)
    requires request != buffer && n <= buffer.Length && n <= BUFFER <= request.Length <= MAX_RETAINED
    requires length <= request.Length && length + n <= MAX_RETAINED
    modifies request
    ensures grown == request || fresh(grown)
    ensures grown != buffer && length + n <= grown.Length
    ensures grown[..length + n] == old(request[..length]) + old(buffer[..n])
    ensures grown == request ==> moved == 0
    ensures grown != request ==>
      moved == length && request.Length < length + n
      && grown.Length == Min(MAX_RETAINED, request.Length * 2)
  {
    grown, moved := request, 0;
    var needed := length + n;
    if needed > request.Length {
      var capacity := Min(MAX_RETAINED, Max(needed, request.Length * 2));
      grown := new Byte[capacity];
      Copy(grown, 0, request, length);
      moved := length;
      assert grown[..length] == old(request[..length]);
    }
    Copy(grown, length, buffer, n);
    assert grown[..needed] == grown[..length] + grown[length..needed];
  }

  // `copy(target[at:], source[:n])`
  method Copy(target: array<Byte>, at: nat, source: array<Byte>, n: nat)
    requires target != source && at + n <= target.Length && n <= source.Length
    modifies target
    ensures target[..at] == old(target[..at]) && target[at..at + n] == old(source[..n])
  {
    for i := 0 to n
      invariant target[..at] == old(target[..at])
      invariant forall j :: 0 <= j < i ==> target[at + j] == old(source[j])
    {
      target[at + i] := source[i];
    }
  }

  // ---- the replies behind a result ----

  function Run(replies: seq<Reply>): (p: Progress)
    ensures Within(p)
    decreases |replies|
  {
    if replies == [] then Reading([], 0)
    else Step(Run(replies[..|replies| - 1]), replies[|replies| - 1])
  }

  lemma RunAppend(replies: seq<Reply>, reply: Reply)
    ensures Run(replies + [reply]) == Step(Run(replies), reply)
  {
    assert (replies + [reply])[..|replies|] == replies;
  }

  // The replies this reader gives from its first call on, for as long as it is asked.
  ghost predicate Served(behaviour: Behaviour, first: nat, replies: seq<Reply>)
    decreases |replies|
  {
    replies == [] ||
    var front, last := replies[..|replies| - 1], replies[|replies| - 1];
    Served(behaviour, first, front) && Run(front).Reading?
    && last == behaviour(first + |front|, Offered(|Run(front).body|))
  }

  /** Whatever has been served, reading on from there leads to the reader's one result. */
  lemma {:induction false} ServedReads(behaviour: Behaviour, first: nat, replies: seq<Reply>)
    requires Served(behaviour, first, replies)
    ensures Drain(behaviour, first + |replies|, Run(replies)) == Read(behaviour, first)
    decreases |replies|
  {
    hide Step;
    if replies != [] {
      var front := replies[..|replies| - 1];
      ServedReads(behaviour, first, front);
      DrainStep(behaviour, first + |front|, Run(front).body, Run(front).stalls);
    }
  }

  /** Every reader serves replies that end the loop with its result, one for each call. */
  lemma {:induction false} ServedToTheEnd(behaviour: Behaviour, first: nat, before: seq<Reply>)
    returns (replies: seq<Reply>)
    requires Served(behaviour, first, before)
    ensures Served(behaviour, first, replies)
    ensures Run(replies) == Done(Read(behaviour, first).0) && Read(behaviour, first).1 == first + |replies|
    decreases BytesLeft(Run(before)), StallsLeft(Run(before))
  {
    ServedReads(behaviour, first, before);
    if Run(before).Done? {
      return before;
    }
    var reply := behaviour(first + |before|, Offered(|Run(before).body|));
    var longer := before + [reply];
    assert longer[..|longer| - 1] == before;
    RunAppend(before, reply);
    StepShrinks(Run(before), reply);
    hide Step, Run;
    replies := ServedToTheEnd(behaviour, first, longer);
  }

  lemma StepShrinks(p: Progress, reply: Reply)
    requires Within(p) && p.Reading?
    ensures var q := Step(p, reply);
      BytesLeft(q) < BytesLeft(p) || (BytesLeft(q) == BytesLeft(p) && StallsLeft(q) < StallsLeft(p))
  {
  }

  // ---- what each result means ----

  function Chunk(reply: Reply): seq<Byte> {
    if reply.Bytes? then reply.chunk else []
  }

  function Delivered(replies: seq<Reply>): seq<Byte>
    decreases |replies|
  {
    if replies == [] then []
    else Delivered(replies[..|replies| - 1]) + Chunk(replies[|replies| - 1])
  }

  // How many replies at the end brought nothing, not even an error.
  function TrailingStalls(replies: seq<Reply>): (n: nat)
    ensures n <= |replies|
    decreases |replies|
  {
    if replies == [] || !Stall(replies[|replies| - 1]) then 0
    else 1 + TrailingStalls(replies[..|replies| - 1])
  }

  /** While the loop reads on, its body is what was delivered, and its counter the stalls at the end. */
  lemma {:induction false} ReadingExact(replies: seq<Reply>)
    requires Run(replies).Reading?
    ensures Run(replies) == Reading(Delivered(replies), TrailingStalls(replies))
    decreases |replies|
  {
    if replies != [] {
      var front, last := replies[..|replies| - 1], replies[|replies| - 1];
      ReadingExact(front);
      StepCases(Run(front).body, Run(front).stalls, last);
    }
  }

  /** The reply that ends the loop decides the result: a count that was not offered, a byte too many,
      the reader's own end or error, or the hundredth stall in a row. */
  lemma {:induction false} EndExact(front: seq<Reply>, last: Reply)
    requires Run(front).Reading?
    ensures var (all, retained) := (front + [last], |Delivered(front)|);
      var offered := if 8388609 - retained < 32768 then 8388609 - retained else 32768;
      retained <= 8388608
      && Run(all) ==
           if last.Negative? || |last.chunk| > offered then Done(BadCount)
           else if |Delivered(all)| > 8388608 then Done(TooLarge)
           else match last.error
             case Some(EOF) => Done(Body(Delivered(all)))
             case Some(Failure(code)) => Done(Failed(code))
             case None =>
               if TrailingStalls(all) >= 100 then Done(NoProgress)
               else Reading(Delivered(all), TrailingStalls(all))
  {
    var all := front + [last];
    assert all[..|front|] == front;
    ReadingExact(front);
    RunAppend(front, last);
    StepCases(Delivered(front), TrailingStalls(front), last);
    assert Delivered(all) == Delivered(front) + Chunk(last);
    hide Run, Step;
    if last.Bytes? && last.chunk == [] {
      assert Delivered(all) == Delivered(front);
    }
  }

  // ---- independence of chunking ----

  // Each reply respects the `io.Reader` contract for the size offered to it.
  predicate Lawful(replies: seq<Reply>)
    decreases |replies|
  {
    replies == [] ||
    var front, last := replies[..|replies| - 1], replies[|replies| - 1];
    Lawful(front) && last.Bytes?
    && (|Delivered(front)| <= MAX_BODY ==> |last.chunk| <= Offered(|Delivered(front)|))
  }

  predicate Stall(reply: Reply) { reply.Bytes? && reply.chunk == [] && reply.error.None? }

  // No hundred stalls in a row.
  ghost predicate Progresses(replies: seq<Reply>) {
    forall i: nat :: i + 100 <= |replies| ==> MovesFrom(replies, i)
  }

  ghost predicate MovesFrom(replies: seq<Reply>, i: nat)
    requires i + 100 <= |replies|
  {
    exists j :: i <= j < i + 100 && !Stall(replies[j])
  }

  // The replies deliver a prefix of the stream, and only its end is announced, with this error.
  predicate Serves(replies: seq<Reply>, stream: seq<Byte>, end: ReadError)
    decreases |replies|
  {
    replies == [] ||
    var front, last := replies[..|replies| - 1], replies[|replies| - 1];
    Serves(front, stream, end) && Delivered(replies) <= stream
    && (last.error.Some? ==> last.error.value == end && Delivered(replies) == stream)
  }

  function Expected(stream: seq<Byte>, end: ReadError): Result {
    if |stream| > 8388608 then TooLarge
    else if end.EOF? then Body(stream)
    else Failed(end.code)
  }

  // The loop's state after lawful replies: everything delivered, and only a short run of stalls.
  ghost predicate Tracks(p: Progress, replies: seq<Reply>, stream: seq<Byte>, end: ReadError) {
    match p
    case Done(result) => result == Expected(stream, end)
    case Reading(body, stalls) =>
      body == Delivered(replies) && stalls <= |replies|
      && forall j :: |replies| - stalls <= j < |replies| ==> Stall(replies[j])
  }

  lemma StallsShort(replies: seq<Reply>, stalls: nat)
    requires Progresses(replies) && stalls <= |replies|
    requires forall j :: |replies| - stalls <= j < |replies| ==> Stall(replies[j])
    ensures stalls < MAX_STALLS
  {
    if MAX_STALLS <= |replies| {
      assert MovesFrom(replies, |replies| - MAX_STALLS);
    }
  }

  lemma TrackStep(front: seq<Reply>, last: Reply, stream: seq<Byte>, end: ReadError)
    requires Lawful(front + [last]) && Progresses(front + [last]) && Serves(front + [last], stream, end)
    requires Tracks(Run(front), front, stream, end)
    ensures Tracks(Run(front + [last]), front + [last], stream, end)
  {
    var all := front + [last];
    assert all[..|all| - 1] == front;
    RunAppend(front, last);
    if Run(front).Reading? {
      var Reading(body, stalls) := Run(front);
      StepCases(body, stalls, last);
      assert Delivered(all) == body + last.chunk;
      if last.chunk == [] {
        assert Delivered(all) == body;
      }
      if Stall(last) {
        StallsShort(all, stalls + 1);
      }
    }
  }

  lemma {:induction false} LawfulTracks(replies: seq<Reply>, stream: seq<Byte>, end: ReadError)
    requires Lawful(replies) && Progresses(replies) && Serves(replies, stream, end)
    ensures Tracks(Run(replies), replies, stream, end)
    decreases |replies|
  {
    if replies != [] {
      var front, last := replies[..|replies| - 1], replies[|replies| - 1];
      assert replies == front + [last];
      assert Progresses(front) by {
        forall i: nat | i + MAX_STALLS <= |front| ensures MovesFrom(front, i) {
          assert MovesFrom(replies, i);
          var j :| i <= j < i + MAX_STALLS && !Stall(replies[j]);
          assert front[j] == replies[j];
        }
      }
      LawfulTracks(front, stream, end);
      TrackStep(front, last, stream, end);
    }
  }

  // The `io.Reader` contract: between none and all of the offered bytes.
  ghost predicate LawfulReader(behaviour: Behaviour) {
    forall call: nat, offered: nat :: offered > 0 ==> LawfulReply(behaviour(call, offered), offered)
  }

  predicate LawfulReply(reply: Reply, offered: nat) { reply.Bytes? && |reply.chunk| <= offered }

  // A lawful reader that, while it is asked, cuts this stream into chunks and ends it with this
  // error, never stalling a hundred times in a row.
  ghost predicate Cuts(behaviour: Behaviour, first: nat, stream: seq<Byte>, end: ReadError) {
    LawfulReader(behaviour)
    && forall replies | Served(behaviour, first, replies) :: Progresses(replies) && Serves(replies, stream, end)
  }

  lemma {:induction false} ServedLawful(behaviour: Behaviour, first: nat, replies: seq<Reply>, stream: seq<Byte>,
                                        end: ReadError)
    requires Cuts(behaviour, first, stream, end) && Served(behaviour, first, replies)
    ensures Lawful(replies)
    decreases |replies|
  {
    if replies != [] {
      var front, last := replies[..|replies| - 1], replies[|replies| - 1];
      ServedLawful(behaviour, first, front, stream, end);
      LawfulTracks(front, stream, end);
      assert LawfulReply(last, Offered(|Run(front).body|));
    }
  }

  /** However a lawful reader that keeps progressing cuts its stream into chunks, reading it gives
      the whole stream at EOF within the limit, too-large past it whatever comes with the overflow
      byte, and otherwise the reader's own error without the prefix. */
  lemma {:induction false} ChunkingIrrelevant(behaviour: Behaviour, first: nat, stream: seq<Byte>, end: ReadError)
    requires Cuts(behaviour, first, stream, end)
    ensures Read(behaviour, first).0 == Expected(stream, end)
  {
    assert Served(behaviour, first, []);
    var replies := ServedToTheEnd(behaviour, first, []);
    ServedLawful(behaviour, first, replies, stream, end);
    LawfulTracks(replies, stream, end);
  }

  // The reader that hands out one byte a call and then announces the end.
  function ByteByByte(stream: seq<Byte>, end: ReadError): Behaviour {
    (call: nat, offered: nat) => if call < |stream| then Bytes([stream[call]], None) else Bytes([], Some(end))
  }

  lemma {:induction false} ByteByByteServes(stream: seq<Byte>, end: ReadError, replies: seq<Reply>)
    requires Served(ByteByByte(stream, end), 0, replies)
    ensures Serves(replies, stream, end) && Delivered(replies) == stream[..Min(|replies|, |stream|)]
    ensures forall i :: 0 <= i < |replies| ==> !Stall(replies[i])
    decreases |replies|
  {
    hide Run, Step;
    if replies != [] {
      var front, last := replies[..|replies| - 1], replies[|replies| - 1];
      ByteByByteServes(stream, end, front);
      ByteAnswer(stream, end, |front|, last);
      assert Delivered(replies) == Delivered(front) + Chunk(last);
      hide Served, ByteByByte;
    }
  }

  lemma ByteAnswer(stream: seq<Byte>, end: ReadError, call: nat, reply: Reply)
    requires exists offered: nat :: reply == ByteByByte(stream, end)(call, offered)
    ensures !Stall(reply)
    ensures reply == if call < |stream| then Bytes([stream[call]], None) else Bytes([], Some(end))
    ensures stream[..Min(call, |stream|)] + Chunk(reply) == stream[..Min(call + 1, |stream|)]
  {
  }

  /** Any stream and end can be cut, so reading them has its one result. */
  lemma {:induction false} EveryStreamReads(stream: seq<Byte>, end: ReadError)
    ensures Cuts(ByteByByte(stream, end), 0, stream, end)
    ensures Read(ByteByByte(stream, end), 0).0 == Expected(stream, end)
  {
    hide Read, Served, Serves;
    forall replies | Served(ByteByByte(stream, end), 0, replies)
      ensures Progresses(replies) && Serves(replies, stream, end)
    {
      ByteByByteServes(stream, end, replies);
      forall i: nat | i + MAX_STALLS <= |replies| ensures MovesFrom(replies, i) {
        assert !Stall(replies[i]);
      }
    }
    ChunkingIrrelevant(ByteByByte(stream, end), 0, stream, end);
  }

  /** Two readers that cut one stream with one end differently get one result. */
  method ReadAlike(left: Reader, right: Reader, ghost stream: seq<Byte>, ghost end: ReadError)
    returns (x: Result, y: Result)
    requires left != right
    requires Cuts(left.behaviour, left.calls, stream, end) && Cuts(right.behaviour, right.calls, stream, end)
    modifies left, right
    ensures x == y == Expected(stream, end)
  {
    ChunkingIrrelevant(left.behaviour, left.calls, stream, end);
    ChunkingIrrelevant(right.behaviour, right.calls, stream, end);
    hide *;
    ghost var copied, capacity;
    x, copied, capacity := ReadRequestBody(left);
    y, copied, capacity := ReadRequestBody(right);
  }
}
