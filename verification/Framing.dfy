/** Messages of the p2p service as frames, and their reassembly. */
module Framing {
  import opened Bytes

  const FRAME_FLAG_MORE: nat := 1
  const MAX_MESSAGE_BYTES: nat := 4 * 1024 * 1024

  /** The payload bytes of one frame, which the network library sets. */
  type FrameSize = n: nat | n > 0 witness 1

  datatype Message =
    | GetLatestBlockRequest | GetBlockRequest | GetBlockNullifiersRequest | GetBlockRangeRequest
    | GetBlockRangeNullifiersRequest | GetTransactionRequest | GetTreeStateRequest | GetLatestTreeStateRequest
    | GetSubtreeRootsRequest | GetLightdInfoRequest | PingRequest
    | GetLatestBlockResponse | GetBlockResponse | GetBlockNullifiersResponse | GetBlockRangeResponse
    | GetBlockRangeNullifiersResponse | GetTransactionResponse | GetTreeStateResponse | GetLatestTreeStateResponse
    | GetSubtreeRootsResponse | GetLightdInfoResponse | PingResponse
    | StreamEnd | ErrorResponse

  /** All messages, each at its number. */
  const MESSAGES: seq<Message> := [
    GetLatestBlockRequest, GetBlockRequest, GetBlockNullifiersRequest, GetBlockRangeRequest,
    GetBlockRangeNullifiersRequest, GetTransactionRequest, GetTreeStateRequest, GetLatestTreeStateRequest,
    GetSubtreeRootsRequest, GetLightdInfoRequest, PingRequest,
    GetLatestBlockResponse, GetBlockResponse, GetBlockNullifiersResponse, GetBlockRangeResponse,
    GetBlockRangeNullifiersResponse, GetTransactionResponse, GetTreeStateResponse, GetLatestTreeStateResponse,
    GetSubtreeRootsResponse, GetLightdInfoResponse, PingResponse,
    StreamEnd, ErrorResponse]

  function Number(m: Message): nat {
    match m
    case GetLatestBlockRequest => 0
    case GetBlockRequest => 1
    case GetBlockNullifiersRequest => 2
    case GetBlockRangeRequest => 3
    case GetBlockRangeNullifiersRequest => 4
    case GetTransactionRequest => 5
    case GetTreeStateRequest => 6
    case GetLatestTreeStateRequest => 7
    case GetSubtreeRootsRequest => 8
    case GetLightdInfoRequest => 9
    case PingRequest => 10
    case GetLatestBlockResponse => 11
    case GetBlockResponse => 12
    case GetBlockNullifiersResponse => 13
    case GetBlockRangeResponse => 14
    case GetBlockRangeNullifiersResponse => 15
    case GetTransactionResponse => 16
    case GetTreeStateResponse => 17
    case GetLatestTreeStateResponse => 18
    case GetSubtreeRootsResponse => 19
    case GetLightdInfoResponse => 20
    case PingResponse => 21
    case StreamEnd => 22
    case ErrorResponse => 23
  }

  function FromNumber(n: nat): Option<Message> {
    if n < |MESSAGES| then Some(MESSAGES[n]) else None
  }

  /** The numbers of the messages are exactly 0 to 23. */
  lemma NumbersRoundTrip(m: Message, n: nat)
    ensures FromNumber(Number(m)) == Some(m)
    ensures FromNumber(n).Some? <==> n <= 23
    ensures FromNumber(n).Some? ==> Number(FromNumber(n).value) == n
  {
  }

  // Reassembly.

  datatype Frame = Frame(messageType: nat, flags: nat, payload: seq<byte>)

  datatype FrameError = Flags(flags: nat) | UnknownType(number: nat) | TypeChanged | TooLong

  datatype Pushed = Bad(error: FrameError) | Incomplete | Complete(message: Message, payload: seq<byte>)

  /** A message that is not complete yet. */
  type Partial = Option<(Message, seq<byte>)>

  function Push(state: Partial, f: Frame): (Pushed, Partial) {
    if f.flags > FRAME_FLAG_MORE then (Bad(Flags(f.flags)), state)
    else
      match FromNumber(f.messageType)
      case None => (Bad(UnknownType(f.messageType)), state)
      case Some(m) =>
        if state.Some? && state.value.0 != m then (Bad(TypeChanged), state)
        else
          var held := if state.None? then [] else state.value.1;
          if |f.payload| > SaturatingSub(MAX_MESSAGE_BYTES, |held|) then (Bad(TooLong), state)
          else if f.flags == 0 then (Complete(m, held + f.payload), None)
          else (Incomplete, Some((m, held + f.payload)))
  }

  class MessageDecoder {
    var partial: Partial

    constructor ()
      ensures partial == None
    {
      partial := None;
    }

    method PushFrame(messageType: nat, flags: nat, bytes: seq<byte>) returns (r: Pushed)
      modifies this
      ensures (r, partial) == Push(old(partial), Frame(messageType, flags, bytes))
              && (Bounded(old(partial)) ==> Bounded(partial))
    {
      if flags > FRAME_FLAG_MORE {
        return Bad(Flags(flags));
      }
      var message := FromNumber(messageType);
      if message.None? {
        return Bad(UnknownType(messageType));
      }
      if partial.Some? && partial.value.0 != message.value {
        return Bad(TypeChanged);
      }
      var current := if partial.None? then 0 else |partial.value.1|;
      if |bytes| > SaturatingSub(MAX_MESSAGE_BYTES, current) {
        return Bad(TooLong);
      }
      if partial.None? {
        partial := Some((message.value, []));
      }
      partial := Some((partial.value.0, partial.value.1 + bytes));
      if flags == 0 {
        r := Complete(partial.value.0, partial.value.1);
        partial := None;
      } else {
        r := Incomplete;
      }
    }
  }

  predicate Bounded(state: Partial) {
    state.Some? ==> |state.value.1| <= MAX_MESSAGE_BYTES
  }

  /** What one decoder makes of `frames`: the complete messages, then an error if there was one. */
  datatype Run = Run(messages: seq<(Message, seq<byte>)>, error: Option<FrameError>, state: Partial)

  function Feed(state: Partial, frames: seq<Frame>): Run
    decreases frames
  {
    if frames == [] then Run([], None, state)
    else
      match Push(state, frames[0])
      case (Bad(e), next) => Run([], Some(e), next)
      case (Incomplete, next) => Feed(next, frames[1..])
      case (Complete(m, payload), next) =>
        var rest := Feed(next, frames[1..]);
        rest.(messages := [(m, payload)] + rest.messages)
  }

  /** For arbitrary frames the buffer never exceeds the message limit, and neither does a message. */
  lemma {:induction false} BufferIsBounded(state: Partial, frames: seq<Frame>)
    requires Bounded(state)
    ensures Bounded(Feed(state, frames).state) && forall m <- Feed(state, frames).messages :: |m.1| <= MAX_MESSAGE_BYTES
    decreases frames
  {
    hide FromNumber;
    if frames != [] && !Push(state, frames[0]).0.Bad? {
      BufferIsBounded(Push(state, frames[0]).1, frames[1..]);
    }
  }

  // Fragmentation.

  /** The status that takes the place of a message over the limit: code 8 and its text. */
  const LIMIT_STATUS: seq<byte> := [
    8, 8, 18, 30, 114, 101, 115, 112, 111, 110, 115, 101, 32, 101, 120, 99, 101, 101, 100, 115, 32,
    52, 49, 57, 52, 51, 48, 52, 32, 98, 121, 116, 101, 115]

  /** What is sent for a message: the message, or the status if it is over the limit. */
  function Sent(m: Message, payload: seq<byte>): (Message, seq<byte>) {
    if |payload| > MAX_MESSAGE_BYTES then (ErrorResponse, LIMIT_STATUS) else (m, payload)
  }

  /** The frames of a payload: full chunks with the flag for more, then the rest without it. */
  function Chunked(size: FrameSize, m: Message, payload: seq<byte>): seq<Frame>
    decreases |payload|
  {
    if |payload| <= size then [Frame(Number(m), 0, payload)]
    else [Frame(Number(m), FRAME_FLAG_MORE, payload[..size])] + Chunked(size, m, payload[size..])
  }

  function Frames(size: FrameSize, m: Message, payload: seq<byte>): seq<Frame> {
    Chunked(size, Sent(m, payload).0, Sent(m, payload).1)
  }

  /** `send_bytes`: frame after frame, with a look at whether there is another chunk. */
  method SendBytes(size: FrameSize, m: Message, payload: seq<byte>) returns (frames: seq<Frame>)
    ensures frames == Frames(size, m, payload)
  {
    hide Number;
    var message, rest := Sent(m, payload).0, Sent(m, payload).1;
    frames := [];
    if rest == [] {
      return [Frame(Number(message), 0, rest)];
    }
    ghost var all := Chunked(size, message, rest);
    while |rest| > 0
      invariant all == frames + if rest == [] then [] else Chunked(size, message, rest)
      decreases |rest|
    {
      var len := if |rest| <= size then |rest| else size;
      var chunk := rest[..len];
      assert len == |rest| ==> chunk == rest;
      rest := rest[len..];
      frames := frames + [Frame(Number(message), if rest == [] then 0 else FRAME_FLAG_MORE, chunk)];
    }
  }

  lemma {:induction false} ChunksReassemble(size: FrameSize, m: Message, held: seq<byte>, payload: seq<byte>,
                                            state: Partial, more: seq<Frame>)
    requires |held| + |payload| <= MAX_MESSAGE_BYTES
    requires state == Some((m, held)) || (state == None && held == [])
    ensures Feed(state, Chunked(size, m, payload) + more)
            == var rest := Feed(None, more); rest.(messages := [(m, held + payload)] + rest.messages)
    decreases |payload|
  {
    hide Number, FromNumber;
    var frames := Chunked(size, m, payload);
    NumbersRoundTrip(m, 0);
    assert (frames + more)[0] == frames[0];
    if |payload| <= size {
      assert (frames + more)[1..] == more;
    } else {
      var chunk, rest := payload[..size], payload[size..];
      assert (frames + more)[1..] == Chunked(size, m, rest) + more;
      ChunksReassemble(size, m, held + chunk, rest, Some((m, held + chunk)), more);
      assert held + chunk + rest == held + payload;
    }
  }

  function AllFrames(size: FrameSize, messages: seq<(Message, seq<byte>)>): seq<Frame> {
    if messages == [] then [] else Frames(size, messages[0].0, messages[0].1) + AllFrames(size, messages[1..])
  }

  function AllSent(messages: seq<(Message, seq<byte>)>): seq<(Message, seq<byte>)> {
    if messages == [] then [] else [Sent(messages[0].0, messages[0].1)] + AllSent(messages[1..])
  }

  /** The frames of any messages, fed to one decoder, give the same messages without an error; a
      message over the limit comes out as the status. */
  lemma {:induction false} FramesRoundTrip(size: FrameSize, messages: seq<(Message, seq<byte>)>)
    ensures Feed(None, AllFrames(size, messages)) == Run(AllSent(messages), None, None)
  {
    hide Push, Chunked;
    if messages != [] {
      var sent := Sent(messages[0].0, messages[0].1);
      ChunksReassemble(size, sent.0, [], sent.1, None, AllFrames(size, messages[1..]));
      assert [] + sent.1 == sent.1;
      FramesRoundTrip(size, messages[1..]);
    }
  }

  /** Messages within the limit come back unchanged, in order and without an error. */
  lemma {:induction false} MessagesRoundTrip(size: FrameSize, messages: seq<(Message, seq<byte>)>)
    requires forall m <- messages :: |m.1| <= MAX_MESSAGE_BYTES
    ensures Feed(None, AllFrames(size, messages)) == Run(messages, None, None) && AllSent(messages) == messages
  {
    hide Feed, AllFrames;
    FramesRoundTrip(size, messages);
    if messages != [] {
      assert messages[0] in messages;
      MessagesRoundTrip(size, messages[1..]);
      assert [messages[0]] + messages[1..] == messages;
    }
  }

  // Which frames are a message.

  ghost function PayloadOf(frames: seq<Frame>): seq<byte> {
    if frames == [] then [] else PayloadOf(frames[..|frames| - 1]) + frames[|frames| - 1].payload
  }

  /** The frames of one message: all of its type, the flag for more on all but the last, and at most
      4 MiB together. */
  ghost predicate IsMessage(frames: seq<Frame>, m: Message, payload: seq<byte>) {
    && frames != [] && payload == PayloadOf(frames) && |payload| <= 4_194_304
    && forall i | 0 <= i < |frames| ::
         frames[i].messageType == Number(m) && frames[i].flags == if i + 1 == |frames| then 0 else 1
  }

  /** The frames `open` of a message that is not complete yet. */
  ghost predicate Opened(state: Partial, open: seq<Frame>) {
    match state
    case None => open == []
    case Some((m, held)) =>
      && open != [] && held == PayloadOf(open) && |held| <= 4_194_304
      && forall f <- open :: f.messageType == Number(m) && f.flags == 1
  }

  /** What one frame does, and when it is bad: by its flags, its type, another type than that of the
      open message, or its length, in this order. A bad frame changes nothing. */
  lemma PushMeans(state: Partial, open: seq<Frame>, f: Frame)
    requires Opened(state, open)
    ensures match Push(state, f).0
            case Incomplete => Opened(Push(state, f).1, open + [f]) && Push(state, f).1.Some?
            case Complete(m, payload) => IsMessage(open + [f], m, payload) && Push(state, f).1 == None
            case Bad(e) =>
              && Push(state, f).1 == state
              && e == if f.flags > 1 then Flags(f.flags)
                      else if f.messageType > 23 then UnknownType(f.messageType)
                      else if state.Some? && Number(state.value.0) != f.messageType then TypeChanged
                      else TooLong
    ensures Push(state, f).0.Bad? <==>
            || f.flags > 1 || f.messageType > 23 || (state.Some? && Number(state.value.0) != f.messageType)
            || |PayloadOf(open)| + |f.payload| > 4_194_304
  {
    hide FromNumber, Number;
    var held := if state.None? then [] else state.value.1;
    NumbersRoundTrip(if state.Some? then state.value.0 else PingRequest, f.messageType);
    assert (open + [f])[..|open|] == open;
    assert PayloadOf(open + [f]) == held + f.payload;
  }

  /** `groups` are the frames of `messages`, one after the other. */
  ghost predicate Grouped(frames: seq<Frame>, messages: seq<(Message, seq<byte>)>, groups: seq<seq<Frame>>) {
    && |groups| == |messages| && Concat(groups) == frames
    && forall i | 0 <= i < |groups| :: IsMessage(groups[i], messages[i].0, messages[i].1)
  }

  lemma {:induction false} FeedGroups(state: Partial, open: seq<Frame>, frames: seq<Frame>)
    returns (groups: seq<seq<Frame>>)
    requires Opened(state, open) && Feed(state, frames).error.None? && Feed(state, frames).state.None?
    ensures Grouped(open + frames, Feed(state, frames).messages, groups)
    decreases frames
  {
    hide Push, IsMessage;
    if frames == [] {
      groups := [];
    } else {
      var f, rest := frames[0], frames[1..];
      PushMeans(state, open, f);
      assert open + frames == open + [f] + rest;
      if Push(state, f).0.Incomplete? {
        groups := FeedGroups(Push(state, f).1, open + [f], rest);
      } else {
        var more := FeedGroups(None, [], rest);
        groups := [open + [f]] + more;
        assert groups[1..] == more && [] + rest == rest;
      }
    }
  }

  lemma {:induction false} PayloadGrows(a: seq<Frame>, b: seq<Frame>)
    ensures |PayloadOf(a)| <= |PayloadOf(a + b)|
    decreases b
  {
    if b == [] {
      assert a + b == a;
    } else {
      assert (a + b)[..|a + b| - 1] == a + b[..|b| - 1];
      PayloadGrows(a, b[..|b| - 1]);
    }
  }

  /** The next frame of a message. */
  lemma NextFrame(open: seq<Frame>, frames: seq<Frame>, m: Message, payload: seq<byte>)
    requires frames != [] && IsMessage(open + frames, m, payload)
    ensures frames[0].messageType == Number(m) && frames[0].flags == if |frames| == 1 then 0 else 1
    ensures |PayloadOf(open + [frames[0]])| <= 4_194_304 && open + frames == open + [frames[0]] + frames[1..]
    ensures |frames| == 1 ==> PayloadOf(open + [frames[0]]) == payload
  {
    hide Number;
    var f, rest := frames[0], frames[1..];
    assert (open + frames)[|open|] == f;
    assert open + frames == open + [f] + rest;
    PayloadGrows(open + [f], rest);
    if rest == [] {
      assert open + frames == open + [f];
    }
  }

  lemma {:induction false} MessageIsTaken(state: Partial, open: seq<Frame>, frames: seq<Frame>, m: Message,
                                          payload: seq<byte>, more: seq<Frame>)
    requires Opened(state, open) && frames != [] && IsMessage(open + frames, m, payload)
    requires state.Some? ==> state.value.0 == m
    ensures Feed(state, frames + more)
            == var rest := Feed(None, more); rest.(messages := [(m, payload)] + rest.messages)
    decreases frames
  {
    hide Push, Number, IsMessage, PayloadOf, Opened;
    var f, rest := frames[0], frames[1..];
    NextFrame(open, frames, m, payload);
    assert (frames + more)[0] == f && (frames + more)[1..] == rest + more;
    PushMeans(state, open, f);
    PushIs(state, open, f, m);
    if rest == [] {
      assert rest + more == more;
    } else {
      MessageIsTaken(Push(state, f).1, open + [f], rest, m, payload, more);
    }
  }

  lemma PushIs(state: Partial, open: seq<Frame>, f: Frame, m: Message)
    requires Opened(state, open) && f.messageType == Number(m) && f.flags <= 1 && (state.Some? ==> state.value.0 == m)
    requires |PayloadOf(open + [f])| <= 4_194_304
    ensures if f.flags == 0 then Push(state, f) == (Complete(m, PayloadOf(open + [f])), None)
            else Push(state, f) == (Incomplete, Some((m, PayloadOf(open + [f]))))
  {
    hide FromNumber, Number;
    NumbersRoundTrip(m, f.messageType);
    assert (open + [f])[..|open|] == open;
  }

  lemma {:induction false} GroupsAreFed(frames: seq<Frame>, messages: seq<(Message, seq<byte>)>,
                                        groups: seq<seq<Frame>>)
    requires Grouped(frames, messages, groups)
    ensures Feed(None, frames) == Run(messages, None, None)
    decreases groups
  {
    hide Push, Number;
    if groups != [] {
      var rest := Concat(groups[1..]);
      assert IsMessage(groups[0], messages[0].0, messages[0].1) && [] + groups[0] == groups[0];
      MessageIsTaken(None, [], groups[0], messages[0].0, messages[0].1, rest);
      GroupsAreFed(rest, messages[1..], groups[1..]);
      assert [messages[0]] + messages[1..] == messages;
    }
  }

  /** A decoder takes frames without an error and without a rest exactly if they are the frames of
      messages, and then it gives these messages. */
  lemma DecoderIsExact(frames: seq<Frame>, messages: seq<(Message, seq<byte>)>)
    ensures Feed(None, frames) == Run(messages, None, None) <==> exists groups :: Grouped(frames, messages, groups)
  {
    hide Grouped;
    if Feed(None, frames) == Run(messages, None, None) {
      var groups := FeedGroups(None, [], frames);
      assert [] + frames == frames;
    }
    forall groups | Grouped(frames, messages, groups) ensures Feed(None, frames) == Run(messages, None, None) {
      GroupsAreFed(frames, messages, groups);
    }
  }

  /** Each frame but the last is full, and the last is empty only for an empty payload. */
  ghost predicate Full(size: FrameSize, frames: seq<Frame>) {
    && frames != [] && (forall i | 0 <= i < |frames| - 1 :: |frames[i].payload| == size)
    && |frames[|frames| - 1].payload| <= size && (frames[|frames| - 1].payload == [] ==> |frames| == 1)
  }

  /** The frames of a payload are those of its message, and each of them but the last is full. A
      message over 4 MiB becomes a status instead. */
  lemma FramesAreFull(size: FrameSize, m: Message, payload: seq<byte>)
    ensures Full(size, Frames(size, m, payload))
    ensures if |payload| <= 4_194_304 then IsMessage(Frames(size, m, payload), m, payload)
            else IsMessage(Frames(size, m, payload), ErrorResponse, LIMIT_STATUS)
  {
    hide Number, Full, IsMessage, Chunked;
    ChunksAreFull(size, Sent(m, payload).0, Sent(m, payload).1);
    ChunksAreMessage(size, Sent(m, payload).0, Sent(m, payload).1);
  }

  lemma {:induction false} ChunksAreFull(size: FrameSize, m: Message, payload: seq<byte>)
    ensures Full(size, Chunked(size, m, payload))
    decreases |payload|
  {
    hide Number;
    if |payload| > size {
      ChunksAreFull(size, m, payload[size..]);
    }
  }

  lemma {:induction false} ChunksAreMessage(size: FrameSize, m: Message, payload: seq<byte>)
    requires |payload| <= 4_194_304
    ensures IsMessage(Chunked(size, m, payload), m, payload)
    decreases |payload|
  {
    hide Number, IsMessage;
    if |payload| <= size {
      OneFrame(m, payload);
    } else {
      ChunksAreMessage(size, m, payload[size..]);
      assert payload == payload[..size] + payload[size..];
      FirstFrame(m, payload[..size], Chunked(size, m, payload[size..]), payload[size..]);
    }
  }

  lemma OneFrame(m: Message, payload: seq<byte>)
    requires |payload| <= 4_194_304
    ensures IsMessage([Frame(Number(m), 0, payload)], m, payload)
  {
    hide Number;
    var frames := [Frame(Number(m), 0, payload)];
    assert frames[..0] == [] && PayloadOf(frames) == [] + payload == payload;
  }

  lemma FirstFrame(m: Message, chunk: seq<byte>, rest: seq<Frame>, payload: seq<byte>)
    requires IsMessage(rest, m, payload) && |chunk| + |payload| <= 4_194_304
    ensures IsMessage([Frame(Number(m), 1, chunk)] + rest, m, chunk + payload)
  {
    hide Number, PayloadOf;
    var head := Frame(Number(m), 1, chunk);
    PayloadSplits(head, rest);
    var all := [head] + rest;
    forall i | 0 <= i < |all|
      ensures all[i].messageType == Number(m) && all[i].flags == if i + 1 == |all| then 0 else 1
    {
      if i > 0 {
        assert all[i] == rest[i - 1];
      }
    }
  }

  lemma {:induction false} PayloadSplits(head: Frame, rest: seq<Frame>)
    ensures PayloadOf([head] + rest) == head.payload + PayloadOf(rest)
    decreases rest
  {
    var all := [head] + rest;
    if rest == [] {
      assert all[..0] == [] && [] + head.payload == head.payload + [];
    } else {
      var n := |rest| - 1;
      PayloadSplits(head, rest[..n]);
      assert all[..n + 1] == [head] + rest[..n];
    }
  }

  /** The status is code 8, resource exhausted, and its text. */
  lemma LimitStatusIs(i: nat)
    ensures |LIMIT_STATUS| == 34 && LIMIT_STATUS[..4] == [8, 8, 18, 30]
    ensures i < 30 ==> LIMIT_STATUS[4 + i] == "response exceeds 4194304 bytes"[i] as nat
  {
  }
}
