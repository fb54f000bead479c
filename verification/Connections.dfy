/** Reassembling RTSP messages from a byte stream that arrives in arbitrary pieces. */
module Connections {
  import opened Basics

  /** The message parser is a library; it is taken as a function. */
  datatype ParseResult<M> =
    | Parsed(message: M, consumed: nat)
    | Incomplete
    | Invalid

  type Parser<M> = seq<Byte> -> ParseResult<M>

  /** What a streaming parser has to provide: nothing is no message, a message takes at least one
      byte and no more than there are, and a result is not changed by what comes after it. */
  ghost predicate PrefixStable<M>(parse: Parser<M>) {
    && parse([]) == Incomplete
    && (forall b :: parse(b).Parsed? ==> 1 <= parse(b).consumed <= |b|)
    && (forall b, more :: parse(b) != Incomplete ==> parse(b + more) == parse(b))
  }

  /** One result of reading from the socket; a chunk of no bytes is the end of the stream. */
  datatype Read =
    | Chunk(bytes: seq<Byte>)
    | Failed

  /** How a call of read_message ends. `Waiting` is a call that still waits for the socket. */
  datatype Reply<M> =
    | Message(message: M)
    | Closed
    | Reset
    | BadMessage
    | IoError
    | Waiting

  function Bytes(feed: seq<Read>): seq<Byte> {
    if feed == [] then []
    else (if feed[0].Chunk? then feed[0].bytes else []) + Bytes(feed[1..])
  }

  // ---------------------------------------------------------------------------------
  // The program
  // ---------------------------------------------------------------------------------

  /** One call of read_message: its reply, the bytes its message took, and what is left in the
      buffer and in the socket. */
  datatype Call<M> = Call(reply: Reply<M>, taken: seq<Byte>, buffer: seq<Byte>, unread: seq<Read>)

  ghost function ReadCall<M>(parse: Parser<M>, buffer: seq<Byte>, feed: seq<Read>): Call<M>
    requires PrefixStable(parse)
    decreases |feed|
  {
    match parse(buffer)
    case Parsed(m, n) => Call(Message(m), buffer[..n], buffer[n..], feed)
    case Invalid => Call(BadMessage, [], buffer, feed)
    case Incomplete =>
      if feed == [] then Call(Waiting, [], buffer, [])
      else if feed[0] == Failed then Call(IoError, [], buffer, feed[1..])
      else if feed[0].bytes == [] then Call(if buffer == [] then Closed else Reset, [], buffer, feed[1..])
      else ReadCall(parse, buffer + feed[0].bytes, feed[1..])
  }

  class Connection<M> {
    var buffer: seq<Byte>
    var incoming: seq<Read>  // what the socket will deliver

    constructor (incoming: seq<Read>)
      ensures buffer == [] && this.incoming == incoming
    {
      buffer, this.incoming := [], incoming;
    }

    method ParseMessage(parse: Parser<M>) returns (result: ParseResult<M>)
      requires PrefixStable(parse)
      modifies this`buffer
      ensures result == parse(old(buffer))
      ensures buffer == if result.Parsed? then old(buffer)[result.consumed..] else old(buffer)
    {
      result := parse(buffer);
      if result.Parsed? {
        buffer := buffer[result.consumed..];
      }
    }

    method ReadMessage(parse: Parser<M>) returns (reply: Reply<M>, ghost taken: seq<Byte>)
      requires PrefixStable(parse)
      modifies this
      ensures Call(reply, taken, buffer, incoming) == ReadCall(parse, old(buffer), old(incoming))
    {
      while true
        invariant ReadCall(parse, buffer, incoming) == ReadCall(parse, old(buffer), old(incoming))
        decreases |incoming|
      {
        ghost var before := buffer;
        var result := ParseMessage(parse);
        match result {
          case Parsed(m, n) => return Message(m), before[..n];
          case Invalid => return BadMessage, [];
          case Incomplete =>
        }

        if incoming == [] {
          return Waiting, [];
        }
        var read := incoming[0];
        incoming := incoming[1..];
        match read {
          case Failed => return IoError, [];
          case Chunk(bytes) =>
            assert buffer + [] == buffer;
            buffer := buffer + bytes;
            if |bytes| == 0 {
              if |buffer| == 0 {
                return Closed, [];
              } else {
                return Reset, [];
              }
            }
        }
      }
    }
  }

  /** Everything repeated calls return: the messages, and the first reply that is not one,
      together with the bytes used up, and what is left in the buffer and in the socket then. */
  datatype Conversation<M> =
    Conversation(messages: seq<M>, last: Reply<M>, used: seq<Byte>, buffer: seq<Byte>, unread: seq<Read>)

  /** A call that returns a message has used up a read, or made the buffer shorter. */
  lemma {:induction false} CallShrinks<M>(parse: Parser<M>, buffer: seq<Byte>, feed: seq<Read>)
    requires PrefixStable(parse)
    ensures var c := ReadCall(parse, buffer, feed);
            c.reply.Message? ==> |c.unread| < |feed| || (c.unread == feed && |c.buffer| < |buffer|)
    decreases |feed|
  {
    if parse(buffer) == Incomplete && feed != [] && feed[0].Chunk? && feed[0].bytes != [] {
      CallShrinks(parse, buffer + feed[0].bytes, feed[1..]);
    }
  }

  ghost function Converse<M>(parse: Parser<M>, buffer: seq<Byte>, feed: seq<Read>): Conversation<M>
    requires PrefixStable(parse)
    decreases |feed|, |buffer|
  {
    CallShrinks(parse, buffer, feed);
    var c := ReadCall(parse, buffer, feed);
    if c.reply.Message? then
      var rest := Converse(parse, c.buffer, c.unread);
      rest.(messages := [c.reply.message] + rest.messages, used := c.taken + rest.used)
    else
      Conversation([], c.reply, [], c.buffer, c.unread)
  }

  // ---------------------------------------------------------------------------------
  // The reference: framing the whole stream at once
  // ---------------------------------------------------------------------------------

  datatype Framing<M> = Framing(messages: seq<M>, rest: seq<Byte>, bad: bool)

  ghost function Frame<M>(parse: Parser<M>, stream: seq<Byte>): Framing<M>
    requires PrefixStable(parse)
    decreases |stream|
  {
    match parse(stream)
    case Parsed(m, n) =>
      var f := Frame(parse, stream[n..]);
      f.(messages := [m] + f.messages)
    case Incomplete => Framing([], stream, false)
    case Invalid => Framing([], stream, true)
  }

  /** How a conversation ends, given the framing of the stream and what came after it. */
  function Ending<M>(f: Framing<M>, after: seq<Read>): Reply<M> {
    if f.bad then BadMessage
    else if after == [] then Waiting
    else if after[0] == Failed then IoError
    else if f.rest == [] then Closed
    else Reset
  }

  predicate Chunks(feed: seq<Read>) {
    forall k :: 0 <= k < |feed| ==> feed[k].Chunk? && feed[k].bytes != []
  }

  /** What ends the stream: nothing yet, a failure, or the end of the stream. */
  predicate Ends(after: seq<Read>) {
    after == [] || after == [Failed] || after == [Chunk([])]
  }

  /** A call that needs more bytes is a call on a longer buffer. */
  lemma ConverseAfterChunk<M>(parse: Parser<M>, buffer: seq<Byte>, feed: seq<Read>)
    requires PrefixStable(parse) && parse(buffer) == Incomplete
    requires feed != [] && feed[0].Chunk? && feed[0].bytes != []
    ensures var here, later := Converse(parse, buffer, feed), Converse(parse, buffer + feed[0].bytes, feed[1..]);
            here.messages == later.messages && here.last == later.last
  {
  }

  lemma Regroup(a: seq<Byte>, b: seq<Byte>, c: seq<Byte>)
    ensures (a + b) + c == a + (b + c)
  {
  }

  lemma ResultStands<M>(parse: Parser<M>, buffer: seq<Byte>, more: seq<Byte>)
    requires PrefixStable(parse) && parse(buffer) != Incomplete
    ensures parse(buffer + more) == parse(buffer)
    ensures parse(buffer).Parsed? ==>
              var n := parse(buffer).consumed;
              1 <= n <= |buffer| && (buffer + more)[n..] == buffer[n..] + more
  {
  }

  /** Repeated calls over the chunks give the messages and the ending of the stream as a whole. */
  ghost predicate IsFramed<M>(parse: Parser<M>, buffer: seq<Byte>, chunks: seq<Read>, after: seq<Read>)
    requires PrefixStable(parse) && Chunks(chunks)
  {
    var c, f := Converse(parse, buffer, chunks + after), Frame(parse, buffer + Bytes(chunks));
    c.messages == f.messages && c.last == Ending(f, after)
  }

  lemma NextMessageIsFramed<M>(parse: Parser<M>, buffer: seq<Byte>, chunks: seq<Read>, after: seq<Read>)
    requires PrefixStable(parse) && Chunks(chunks) && parse(buffer).Parsed?
    requires parse(buffer).consumed <= |buffer| && IsFramed(parse, buffer[parse(buffer).consumed..], chunks, after)
    ensures IsFramed(parse, buffer, chunks, after)
  {
    ResultStands(parse, buffer, Bytes(chunks));
  }

  lemma NextChunkIsFramed<M>(parse: Parser<M>, buffer: seq<Byte>, chunks: seq<Read>, after: seq<Read>)
    requires PrefixStable(parse) && Chunks(chunks) && parse(buffer) == Incomplete && chunks != []
    requires Chunks(chunks[1..]) && IsFramed(parse, buffer + chunks[0].bytes, chunks[1..], after)
    ensures IsFramed(parse, buffer, chunks, after)
  {
    assert (chunks + after)[1..] == chunks[1..] + after && (chunks + after)[0] == chunks[0];
    ConverseAfterChunk(parse, buffer, chunks + after);
    Regroup(buffer, chunks[0].bytes, Bytes(chunks[1..]));
  }

  lemma LastPieceIsFramed<M>(parse: Parser<M>, buffer: seq<Byte>, after: seq<Read>)
    requires PrefixStable(parse) && parse(buffer) == Incomplete && Ends(after)
    ensures IsFramed(parse, buffer, [], after)
  {
    assert buffer + Bytes([]) == buffer && [] + after == after;
  }

  /** Whatever the pieces, the messages and the ending are those of the stream as a whole. */
  lemma {:induction false} ConversationIsFraming<M>(
      parse: Parser<M>, buffer: seq<Byte>, chunks: seq<Read>, after: seq<Read>)
    requires PrefixStable(parse) && Chunks(chunks) && Ends(after)
    ensures var c, f := Converse(parse, buffer, chunks + after), Frame(parse, buffer + Bytes(chunks));
            c.messages == f.messages && c.last == Ending(f, after)
    decreases |chunks|, |buffer|
  {
    match parse(buffer)
    case Invalid => ResultStands(parse, buffer, Bytes(chunks));
    case Parsed(_, n) =>
      ConversationIsFraming(parse, buffer[n..], chunks, after);
      NextMessageIsFramed(parse, buffer, chunks, after);
    case Incomplete =>
      if chunks == [] {
        LastPieceIsFramed(parse, buffer, after);
      } else {
        ConversationIsFraming(parse, buffer + chunks[0].bytes, chunks[1..], after);
        NextChunkIsFramed(parse, buffer, chunks, after);
      }
  }

  /** Two ways of cutting the same stream into feed give the same messages and the same ending. */
  lemma ChunkingDoesNotMatter<M>(parse: Parser<M>, one: seq<Read>, other: seq<Read>, after: seq<Read>)
    requires PrefixStable(parse) && Chunks(one) && Chunks(other) && Ends(after)
    requires Bytes(one) == Bytes(other)
    ensures Converse(parse, [], one + after).messages == Converse(parse, [], other + after).messages
    ensures Converse(parse, [], one + after).last == Converse(parse, [], other + after).last
  {
    ConversationIsFraming(parse, [], one, after);
    ConversationIsFraming(parse, [], other, after);
  }

  lemma {:induction false} CallKeepsBytes<M>(parse: Parser<M>, buffer: seq<Byte>, feed: seq<Read>)
    requires PrefixStable(parse)
    ensures var c := ReadCall(parse, buffer, feed);
            && c.taken + c.buffer + Bytes(c.unread) == buffer + Bytes(feed)
            && (!c.reply.Message? ==> c.taken == [])
    decreases |feed|
  {
    match parse(buffer)
    case Parsed(_, n) => assert buffer[..n] + buffer[n..] == buffer;
    case Invalid => assert [] + buffer == buffer;
    case Incomplete =>
      assert [] + buffer == buffer;
      if feed != [] {
        if feed[0].Chunk? && feed[0].bytes != [] {
          Regroup(buffer, feed[0].bytes, Bytes(feed[1..]));
          CallKeepsBytes(parse, buffer + feed[0].bytes, feed[1..]);
        } else {
          assert Bytes(feed) == [] + Bytes(feed[1..]) == Bytes(feed[1..]);
        }
      }
  }

  /** No byte is lost, repeated or reordered: what messages took, what is buffered and what is
      still unread make up what was there. */
  lemma {:induction false} BytesAreKept<M>(parse: Parser<M>, buffer: seq<Byte>, feed: seq<Read>)
    requires PrefixStable(parse)
    ensures var c := Converse(parse, buffer, feed);
            c.used + c.buffer + Bytes(c.unread) == buffer + Bytes(feed)
    decreases |feed|, |buffer|
  {
    CallShrinks(parse, buffer, feed);
    CallKeepsBytes(parse, buffer, feed);
    var c := ReadCall(parse, buffer, feed);
    if c.reply.Message? {
      BytesAreKept(parse, c.buffer, c.unread);
      var rest := Converse(parse, c.buffer, c.unread);
      Regroup(c.taken, rest.used, rest.buffer);
      Regroup(c.taken, rest.used + rest.buffer, Bytes(rest.unread));
      Regroup(c.taken, c.buffer, Bytes(c.unread));
    } else {
      assert [] + c.buffer == c.buffer;
    }
  }

  // ---------------------------------------------------------------------------------
  // Clean ends
  // ---------------------------------------------------------------------------------

  function Concatenated(pieces: seq<seq<Byte>>): seq<Byte> {
    if pieces == [] then [] else pieces[0] + Concatenated(pieces[1..])
  }

  /** The pieces are whole messages, the given ones. */
  predicate AreWhole<M(==)>(parse: Parser<M>, pieces: seq<seq<Byte>>, messages: seq<M>) {
    |pieces| == |messages| &&
    forall k :: 0 <= k < |pieces| ==> parse(pieces[k]) == Parsed(messages[k], |pieces[k]|)
  }

  /** A parser that decides on a message by its own bytes alone. */
  ghost predicate NoLookahead<M>(parse: Parser<M>) {
    forall b :: parse(b).Parsed? && parse(b).consumed <= |b| ==> parse(b[..parse(b).consumed]) == parse(b)
  }

  /** Whole messages sent one after the other come out as those messages. */
  lemma {:induction false} WholeMessagesComeOut<M>(parse: Parser<M>, pieces: seq<seq<Byte>>, messages: seq<M>)
    requires PrefixStable(parse) && AreWhole(parse, pieces, messages)
    ensures Frame(parse, Concatenated(pieces)) == Framing(messages, [], false)
  {
    if pieces != [] {
      var stream := Concatenated(pieces);
      assert parse(stream) == parse(pieces[0]);
      assert stream[|pieces[0]|..] == Concatenated(pieces[1..]);
      WholeMessagesComeOut(parse, pieces[1..], messages[1..]);
    }
  }

  lemma WholeThenMore<M>(parse: Parser<M>, piece: seq<Byte>, more: seq<Byte>)
    requires PrefixStable(parse) && parse(piece).Parsed? && parse(piece).consumed == |piece|
    ensures Frame(parse, piece + more) ==
            var f := Frame(parse, more); f.(messages := [parse(piece).message] + f.messages)
  {
    assert parse(piece + more) == parse(piece);
    assert (piece + more)[|piece|..] == more;
  }

  lemma {:induction false} WholeThenRest<M>(
      parse: Parser<M>, pieces: seq<seq<Byte>>, messages: seq<M>, rest: seq<Byte>)
    requires PrefixStable(parse) && AreWhole(parse, pieces, messages) && !parse(rest).Parsed?
    ensures Frame(parse, Concatenated(pieces) + rest) == Framing(messages, rest, parse(rest) == Invalid)
  {
    if pieces == [] {
      assert Concatenated(pieces) + rest == rest;
    } else {
      WholeThenRest(parse, pieces[1..], messages[1..], rest);
      WholeThenMore(parse, pieces[0], Concatenated(pieces[1..]) + rest);
      Regroup(pieces[0], Concatenated(pieces[1..]), rest);
      assert [messages[0]] + messages[1..] == messages;
    }
  }

  /** How a conversation ends, for whole messages followed by bytes that are not one, in any chunks:
      with a bad message if the parser rejects those bytes; otherwise still waiting, or with the
      socket's failure, or when the peer closes, clean if nothing is left over and reset if something
      is. */
  lemma HowItEnds<M>(parse: Parser<M>, chunks: seq<Read>, pieces: seq<seq<Byte>>, messages: seq<M>, rest: seq<Byte>)
    requires PrefixStable(parse) && Chunks(chunks) && AreWhole(parse, pieces, messages) && !parse(rest).Parsed?
    requires Bytes(chunks) == Concatenated(pieces) + rest
    ensures Converse(parse, [], chunks).messages == messages
    ensures parse(rest) == Invalid ==>
              && Converse(parse, [], chunks).last == BadMessage
              && Converse(parse, [], chunks + [Failed]).last == BadMessage
              && Converse(parse, [], chunks + [Chunk([])]).last == BadMessage
    ensures parse(rest) == Incomplete ==>
              && Converse(parse, [], chunks).last == Waiting
              && Converse(parse, [], chunks + [Failed]).last == IoError
              && Converse(parse, [], chunks + [Chunk([])]).last == if rest == [] then Closed else Reset
  {
    WholeThenRest(parse, pieces, messages, rest);
    assert [] + Bytes(chunks) == Bytes(chunks) && chunks + [] == chunks;
    ConversationIsFraming(parse, [], chunks, []);
    ConversationIsFraming(parse, [], chunks, [Failed]);
    ConversationIsFraming(parse, [], chunks, [Chunk([])]);
  }

  lemma {:induction false} FrameCutsWhole<M>(parse: Parser<M>, stream: seq<Byte>) returns (pieces: seq<seq<Byte>>)
    requires PrefixStable(parse) && NoLookahead(parse)
    requires Frame(parse, stream).rest == [] && !Frame(parse, stream).bad
    ensures Concatenated(pieces) == stream && AreWhole(parse, pieces, Frame(parse, stream).messages)
    decreases |stream|
  {
    match parse(stream)
    case Incomplete => pieces := [];
    case Parsed(m, n) =>
      var rest := FrameCutsWhole(parse, stream[n..]);
      pieces := [stream[..n]] + rest;
  }

  /** The peer's closing is reported as clean exactly when all it sent was whole messages. */
  lemma CleanCloseMeansWholeMessages<M>(parse: Parser<M>, chunks: seq<Read>)
    requires PrefixStable(parse) && NoLookahead(parse) && Chunks(chunks)
    ensures Converse(parse, [], chunks + [Chunk([])]).last == Closed <==>
            exists pieces, messages :: Concatenated(pieces) == Bytes(chunks) && AreWhole(parse, pieces, messages)
  {
    ConversationIsFraming(parse, [], chunks, [Chunk([])]);
    assert [] + Bytes(chunks) == Bytes(chunks);
    var f := Frame(parse, Bytes(chunks));
    if f.rest == [] && !f.bad {
      var pieces := FrameCutsWhole(parse, Bytes(chunks));
      assert AreWhole(parse, pieces, f.messages);
    }
    forall pieces, messages | Concatenated(pieces) == Bytes(chunks) && AreWhole(parse, pieces, messages)
      ensures f == Framing(messages, [], false)
    {
      WholeMessagesComeOut(parse, pieces, messages);
    }
  }
}
