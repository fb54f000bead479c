/** The resend request that goes out on the control channel, and the two ways an audio packet
    comes in: directly, or wrapped as a retransmission. */
module ControlChannel {
  import opened SeqNumbers
  import opened Basics

  function BigEndian(n: int): seq<Byte>
    requires 0 <= n < 65536
  {
    [n / 256, n % 256]
  }

  function FromBigEndian(hi: Byte, lo: Byte): (n: Seq)
    ensures n / 256 == hi && n % 256 == lo
  {
    hi * 256 + lo
  }

  // ---------------------------------------------------------------------------------
  // Sending resend requests
  // ---------------------------------------------------------------------------------

  /** The number of missing packets as the sender computes it, cast to 16 bits. */
  function WireCount(missing: Range): int {
    |SeqIter(missing.start, missing.end)| % 65536
  }

  function ResendRequest(missing: Range): (message: seq<Byte>)
    ensures |message| == 8
  {
    [0x80, 0xD5] + BigEndian(1) + BigEndian(missing.start) + BigEndian(WireCount(missing))
  }

  /** The numbers a peer reads out of a request: the first one, and how many. */
  function Requested(message: seq<Byte>): seq<Seq>
    requires |message| == 8
  {
    CountUp(FromBigEndian(message[4], message[5]), FromBigEndian(message[6], message[7]))
  }

  lemma BigEndianRoundTrip(n: int)
    requires 0 <= n < 65536
    ensures FromBigEndian(BigEndian(n)[0], BigEndian(n)[1]) == n
  {
  }

  lemma RequestCarries(missing: Range)
    ensures var m := ResendRequest(missing);
            FromBigEndian(m[4], m[5]) == missing.start && FromBigEndian(m[6], m[7]) == WireCount(missing)
  {
    var m := ResendRequest(missing);
    BigEndianRoundTrip(missing.start);
    BigEndianRoundTrip(WireCount(missing));
    assert m[4..6] == BigEndian(missing.start);
    assert m[6..8] == BigEndian(WireCount(missing));
  }

  /** The eight bytes: a fixed header of payload type 85 with the marker bit, sequence number 1, and in
      network byte order the first missing number and how many are missing. */
  lemma RequestBytes(missing: Range)
    ensures var m := ResendRequest(missing);
            && m[..4] == [0x80, 0xD5, 0x00, 0x01]
            && FromBigEndian(m[4], m[5]) == missing.start
            && FromBigEndian(m[6], m[7]) == |SeqIter(missing.start, missing.end)|
  {
    RequestCarries(missing);
    CountIsNotCutOff(missing);
    assert ResendRequest(missing)[..4] == [0x80, 0xD5] + BigEndian(1);
  }

  lemma CountIsNotCutOff(missing: Range)
    ensures WireCount(missing) == |SeqIter(missing.start, missing.end)|
  {
    SeqIterCountsUp(missing.start, missing.end);
  }

  /** Reading a request gives exactly the numbers of the range: the count is never cut off. */
  lemma RequestNamesTheRange(missing: Range)
    ensures Requested(ResendRequest(missing)) == SeqIter(missing.start, missing.end)
  {
    RequestCarries(missing);
    CountIsNotCutOff(missing);
    SeqIterCountsUp(missing.start, missing.end);
  }

  datatype Wake =
    | MissingSeqs(seqs: Range)
    | ChannelClosed
    | ShutdownNotice

  /** How many commands are handled before the channel closes or the shutdown arrives. */
  function Handled(wakes: seq<Wake>): (n: nat)
    ensures n <= |wakes| && (forall k :: 0 <= k < n ==> wakes[k].MissingSeqs?)
    ensures n < |wakes| ==> !wakes[n].MissingSeqs?
  {
    if wakes == [] || !wakes[0].MissingSeqs? then 0 else 1 + Handled(wakes[1..])
  }

  /** The sender's loop, given what each wait of its select yields. */
  method RunSender(wakes: seq<Wake>) returns (sent: seq<seq<Byte>>)
    ensures |sent| == Handled(wakes)
    ensures forall k :: 0 <= k < |sent| ==>
              |sent[k]| == 8 && Requested(sent[k]) == SeqIter(wakes[k].seqs.start, wakes[k].seqs.end)
    ensures forall k :: 0 <= k < |sent| ==>
              && sent[k][..4] == [0x80, 0xD5, 0x00, 0x01]
              && FromBigEndian(sent[k][4], sent[k][5]) == wakes[k].seqs.start
              && FromBigEndian(sent[k][6], sent[k][7]) == |SeqIter(wakes[k].seqs.start, wakes[k].seqs.end)|
  {
    sent := [];
    var next := 0;
    while next < |wakes|
      invariant 0 <= next == |sent| <= |wakes|
      invariant forall k :: 0 <= k < next ==> wakes[k].MissingSeqs?
      invariant forall k :: 0 <= k < next ==>
                  |sent[k]| == 8 && Requested(sent[k]) == SeqIter(wakes[k].seqs.start, wakes[k].seqs.end)
      invariant forall k :: 0 <= k < next ==>
                  && sent[k][..4] == [0x80, 0xD5, 0x00, 0x01]
                  && FromBigEndian(sent[k][4], sent[k][5]) == wakes[k].seqs.start
                  && FromBigEndian(sent[k][6], sent[k][7]) == |SeqIter(wakes[k].seqs.start, wakes[k].seqs.end)|
    {
      match wakes[next] {
        case ChannelClosed => return;
        case ShutdownNotice => return;
        case MissingSeqs(seqs) =>
          RequestNamesTheRange(seqs);
          RequestBytes(seqs);
          sent := sent + [ResendRequest(seqs)];
      }
      next := next + 1;
    }
  }

  // ---------------------------------------------------------------------------------
  // Receiving audio packets
  // ---------------------------------------------------------------------------------

  datatype Rtp = Rtp(payloadType: int, number: Seq, payload: seq<Byte>)

  /** The RTP header reader is a library; it is taken as a function. */
  type Reader = seq<Byte> -> Option<Rtp>

  /** A packet of section 5.1 of RFC 3550 with version 2, no padding, no extension and no CSRC
      list. */
  predicate Plain(packet: seq<Byte>) {
    |packet| >= 12 && packet[0] == 0x80
  }

  ghost predicate ReadsRtp(reader: Reader) {
    && (forall p :: |p| < 12 ==> reader(p) == None)
    && (forall p :: Plain(p) ==>
          reader(p) == Some(Rtp(p[1] % 128, FromBigEndian(p[2], p[3]), p[12..])))
  }

  datatype Received =
    | PutPacket(number: Seq, packet: seq<Byte>)
    | Ignored
    | Panicked

  const BUFFER_SIZE: nat := 4096

  function Truncated(datagram: seq<Byte>): seq<Byte> {
    if |datagram| <= BUFFER_SIZE then datagram else datagram[..BUFFER_SIZE]
  }

  datatype Path = Direct | Control

  /** What each path makes of a datagram. A retransmission too short to hold the inner header
      makes the slice expression panic. */
  function Outcome(path: Path, reader: Reader, datagram: seq<Byte>): Received {
    match (path, reader(datagram))
    case (_, None) => Ignored
    case (Direct, Some(rtp)) => PutPacket(rtp.number, rtp.payload)
    case (Control, Some(rtp)) =>
      if rtp.payloadType != 86 then Ignored
      else if |datagram| < 16 then Panicked
      else PutPacket(FromBigEndian(datagram[6], datagram[7]), datagram[16..])
  }

  /** A datagram comes with whether the player still takes commands at that moment. */
  datatype Arrival =
    | Datagram(bytes: seq<Byte>, playerListens: bool)
    | ReceiveFailed
    | Shutdown

  datatype Ending =
    | Running
    | Closed    // by a shutdown or an empty datagram
    | Failed    // a receive, or the send to the player
    | Crashed

  /** What an arrival does to the loop. */
  function EndedBy(path: Path, reader: Reader, arrival: Arrival): Ending {
    match arrival
    case Shutdown => Closed
    case ReceiveFailed => Failed
    case Datagram(bytes, playerListens) =>
      if bytes == [] then Closed
      else
        match Outcome(path, reader, Truncated(bytes))
        case Panicked => Crashed
        case PutPacket(_, _) => if playerListens then Running else Failed
        case Ignored => Running
  }

  /** The command a datagram gives rise to when it is looked at on its own. */
  function Command(path: Path, reader: Reader, bytes: seq<Byte>): seq<Received> {
    var r := Outcome(path, reader, Truncated(bytes));
    if r.PutPacket? then [r] else []
  }

  /** A plain packet and its retransmission, which carries it behind a four-byte header of
      payload type 86, give the player the same command, exactly as long as the retransmission still
      fits the buffer. */
  lemma PathsAgree(reader: Reader, header: seq<Byte>, packet: seq<Byte>)
    requires ReadsRtp(reader) && Plain(packet)
    requires |header| == 4 && header[0] == 0x80 && header[1] % 128 == 86
    ensures Command(Control, reader, header + packet) == Command(Direct, reader, packet) <==>
            |packet| <= 4092
    ensures |packet| <= 4096 ==>
              Command(Direct, reader, packet) == [PutPacket(FromBigEndian(packet[2], packet[3]), packet[12..])]
  {
    var wrapped, direct := Truncated(header + packet), Truncated(packet);
    assert Plain(wrapped) && Plain(direct);
    assert wrapped[16..] == packet[12..|wrapped| - 4];
    assert direct[12..] == packet[12..|direct|];
  }

  function Commands(path: Path, reader: Reader, arrivals: seq<Arrival>): seq<Received> {
    if arrivals == [] || EndedBy(path, reader, arrivals[0]) != Running then []
    else Command(path, reader, arrivals[0].bytes) + Commands(path, reader, arrivals[1..])
  }

  function LoopEnding(path: Path, reader: Reader, arrivals: seq<Arrival>): Ending {
    if arrivals == [] then Running
    else if EndedBy(path, reader, arrivals[0]) != Running then EndedBy(path, reader, arrivals[0])
    else LoopEnding(path, reader, arrivals[1..])
  }

  lemma CommandsFrom(path: Path, reader: Reader, arrivals: seq<Arrival>, n: nat)
    requires n < |arrivals|
    ensures var end := EndedBy(path, reader, arrivals[n]);
            && LoopEnding(path, reader, arrivals[n..]) ==
               (if end != Running then end else LoopEnding(path, reader, arrivals[n + 1..]))
            && Commands(path, reader, arrivals[n..]) ==
               if end != Running then []
               else Command(path, reader, arrivals[n].bytes) + Commands(path, reader, arrivals[n + 1..])
  {
    assert arrivals[n..][1..] == arrivals[n + 1..];
    assert arrivals[n..][0] == arrivals[n];
  }

  lemma Regroup(done: seq<Received>, here: seq<Received>, later: seq<Received>)
    ensures (done + here) + later == done + (here + later)
    ensures done + [] == done
  {
  }

  // ---------------------------------------------------------------------------------
  // What the loop makes of its datagrams
  // ---------------------------------------------------------------------------------

  /** A datagram that carries an audio packet for this path, as the reader sees it. */
  predicate Carries(path: Path, reader: Reader, bytes: seq<Byte>) {
    reader(bytes).Some? && (path == Control ==> reader(bytes).value.payloadType == 86)
  }

  /** Exactly which arrivals end the loop, and how: a retransmission without room for the inner header
      crashes it, and a packet that the player no longer takes fails it. */
  lemma EndsExactlyWhen(path: Path, reader: Reader, arrival: Arrival)
    ensures EndedBy(path, reader, arrival) == Closed <==>
            arrival.Shutdown? || (arrival.Datagram? && arrival.bytes == [])
    ensures arrival.Datagram? && arrival.bytes != [] ==>
              var received := if |arrival.bytes| > 4096 then arrival.bytes[..4096] else arrival.bytes;
              var carries := Carries(path, reader, received);
              var short := path == Control && |received| < 16;
              && (EndedBy(path, reader, arrival) == Crashed <==> carries && short)
              && (EndedBy(path, reader, arrival) == Failed <==> carries && !short && !arrival.playerListens)
    ensures !arrival.Datagram? ==> (EndedBy(path, reader, arrival) == Failed <==> arrival.ReceiveFailed?)
    ensures EndedBy(path, reader, arrival) == Running ==> arrival.Datagram?
  {
  }

  /** What cannot be read, and on the control channel what is no retransmission, is passed over. */
  lemma OthersArePassedOver(path: Path, reader: Reader, bytes: seq<Byte>, playerListens: bool)
    requires bytes != [] && !Carries(path, reader, if |bytes| > 4096 then bytes[..4096] else bytes)
    ensures Command(path, reader, bytes) == [] && EndedBy(path, reader, Datagram(bytes, playerListens)) == Running
  {
  }

  /** A plain audio packet as it is sent: directly, or retransmitted behind any header of four bytes
      with payload type 86. */
  predicate IsSent(path: Path, header: seq<Byte>, packet: seq<Byte>) {
    && Plain(packet) && |packet| <= 4092
    && (path == Direct ==> header == [])
    && (path == Control ==> |header| == 4 && header[0] == 0x80 && header[1] % 128 == 86)
  }

  /** It is put by itself, and keeps the loop going as long as the player listens. */
  lemma PlainPacketIsPut(path: Path, reader: Reader, header: seq<Byte>, packet: seq<Byte>)
    requires ReadsRtp(reader) && IsSent(path, header, packet)
    ensures Command(path, reader, header + packet) == [PutPacket(FromBigEndian(packet[2], packet[3]), packet[12..])]
    ensures EndedBy(path, reader, Datagram(header + packet, true)) == Running
  {
    if path == Control {
      PathsAgree(reader, header, packet);
    } else {
      assert header + packet == packet;
    }
  }

  /** The commands of each datagram by itself, one after the other. */
  function AllCommands(path: Path, reader: Reader, arrivals: seq<Arrival>): seq<Received>
    requires forall k :: 0 <= k < |arrivals| ==> arrivals[k].Datagram?
  {
    if arrivals == [] then []
    else AllCommands(path, reader, arrivals[..|arrivals| - 1]) +
         Command(path, reader, arrivals[|arrivals| - 1].bytes)
  }

  /** The first n arrivals have been handled, and the loop goes on with the rest. */
  ghost predicate GoesOn(path: Path, reader: Reader, arrivals: seq<Arrival>, n: nat) {
    && n <= |arrivals| && (forall k :: 0 <= k < n ==> arrivals[k].Datagram?)
    && Commands(path, reader, arrivals) ==
       AllCommands(path, reader, arrivals[..n]) + Commands(path, reader, arrivals[n..])
    && LoopEnding(path, reader, arrivals) == LoopEnding(path, reader, arrivals[n..])
  }

  lemma AllCommandsOneMore(path: Path, reader: Reader, arrivals: seq<Arrival>, n: nat)
    requires n < |arrivals| && forall k :: 0 <= k <= n ==> arrivals[k].Datagram?
    ensures AllCommands(path, reader, arrivals[..n + 1]) ==
            AllCommands(path, reader, arrivals[..n]) + Command(path, reader, arrivals[n].bytes)
  {
    assert arrivals[..n + 1][..n] == arrivals[..n];
  }

  lemma OneMoreGoesOn(path: Path, reader: Reader, arrivals: seq<Arrival>, n: nat)
    requires n < |arrivals| && GoesOn(path, reader, arrivals, n)
    requires arrivals[n].Datagram? && EndedBy(path, reader, arrivals[n]) == Running
    ensures GoesOn(path, reader, arrivals, n + 1)
  {
    CommandsFrom(path, reader, arrivals, n);
    AllCommandsOneMore(path, reader, arrivals, n);
    Regroup(AllCommands(path, reader, arrivals[..n]), Command(path, reader, arrivals[n].bytes),
            Commands(path, reader, arrivals[n + 1..]));
  }

  lemma {:induction false} CommandsGoOn(path: Path, reader: Reader, arrivals: seq<Arrival>, n: nat)
    requires n <= |arrivals| && forall k :: 0 <= k < n ==> EndedBy(path, reader, arrivals[k]) == Running
    ensures GoesOn(path, reader, arrivals, n)
  {
    if n == 0 {
      assert arrivals[..0] == [] && arrivals[0..] == arrivals;
    } else {
      CommandsGoOn(path, reader, arrivals, n - 1);
      EndsExactlyWhen(path, reader, arrivals[n - 1]);
      OneMoreGoesOn(path, reader, arrivals, n - 1);
    }
  }

  /** The loop goes on, and delivers what each datagram gives by itself, up to the first arrival that
      ends it; that one decides how it ends. */
  lemma LoopStopsAtTheFirst(path: Path, reader: Reader, arrivals: seq<Arrival>, n: nat)
    requires n <= |arrivals| && forall k :: 0 <= k < n ==> EndedBy(path, reader, arrivals[k]) == Running
    requires n < |arrivals| ==> EndedBy(path, reader, arrivals[n]) != Running
    ensures forall k :: 0 <= k < n ==> arrivals[k].Datagram?
    ensures Commands(path, reader, arrivals) == AllCommands(path, reader, arrivals[..n])
    ensures LoopEnding(path, reader, arrivals) ==
            if n < |arrivals| then EndedBy(path, reader, arrivals[n]) else Running
  {
    CommandsGoOn(path, reader, arrivals, n);
    var delivered := AllCommands(path, reader, arrivals[..n]);
    assert delivered + [] == delivered;
  }

  /** While the player listens, every datagram of a retransmission's least length keeps the loop going. */
  lemma ListeningKeepsRunning(path: Path, reader: Reader, arrivals: seq<Arrival>)
    requires forall k :: 0 <= k < |arrivals| ==>
               arrivals[k].Datagram? && arrivals[k].playerListens && |arrivals[k].bytes| >= 16
    ensures LoopEnding(path, reader, arrivals) == Running
    ensures Commands(path, reader, arrivals) == AllCommands(path, reader, arrivals)
  {
    LoopStopsAtTheFirst(path, reader, arrivals, |arrivals|);
    assert arrivals[..|arrivals|] == arrivals;
  }

  /** The datagrams that carry these packets. */
  function Sent(headers: seq<seq<Byte>>, packets: seq<seq<Byte>>): (arrivals: seq<Arrival>)
    requires |headers| == |packets|
    ensures |arrivals| == |packets|
    ensures forall k :: 0 <= k < |packets| ==> arrivals[k] == Datagram(headers[k] + packets[k], true)
  {
    seq(|packets|, k requires 0 <= k < |packets| => Datagram(headers[k] + packets[k], true))
  }

  /** The command puts this packet: its number, and what follows its header. */
  predicate Puts(command: Received, packet: seq<Byte>) {
    |packet| >= 12 && command == PutPacket(FromBigEndian(packet[2], packet[3]), packet[12..])
  }

  ghost predicate PutAll(commands: seq<Received>, packets: seq<seq<Byte>>) {
    |commands| == |packets| && forall k :: 0 <= k < |packets| ==> Puts(commands[k], packets[k])
  }

  lemma PutOneMore(commands: seq<Received>, packets: seq<seq<Byte>>, command: Received)
    requires packets != [] && PutAll(commands, packets[..|packets| - 1])
    requires Puts(command, packets[|packets| - 1])
    ensures PutAll(commands + [command], packets)
  {
    forall k | 0 <= k < |packets| - 1
      ensures Puts((commands + [command])[k], packets[k])
    {
      assert packets[..|packets| - 1][k] == packets[k];
    }
  }

  lemma {:induction false} PacketsAreCommands(
      path: Path, reader: Reader, headers: seq<seq<Byte>>, packets: seq<seq<Byte>>)
    requires ReadsRtp(reader) && |headers| == |packets|
    requires forall k :: 0 <= k < |packets| ==> IsSent(path, headers[k], packets[k])
    ensures PutAll(AllCommands(path, reader, Sent(headers, packets)), packets)
  {
    if packets != [] {
      var n := |packets| - 1;
      var sent := Sent(headers, packets);
      PacketsAreCommands(path, reader, headers[..n], packets[..n]);
      PlainPacketIsPut(path, reader, headers[n], packets[n]);
      assert sent[..n] == Sent(headers[..n], packets[..n]);
      PutOneMore(AllCommands(path, reader, sent[..n]), packets, Command(path, reader, sent[n].bytes)[0]);
    }
  }

  /** Audio packets sent to a listening player, over either path: the loop keeps running, and its k-th
      command puts the k-th packet. */
  lemma EveryPacketIsPut(path: Path, reader: Reader, headers: seq<seq<Byte>>, packets: seq<seq<Byte>>)
    requires ReadsRtp(reader) && |headers| == |packets|
    requires forall k :: 0 <= k < |packets| ==> IsSent(path, headers[k], packets[k])
    ensures LoopEnding(path, reader, Sent(headers, packets)) == Running
    ensures PutAll(Commands(path, reader, Sent(headers, packets)), packets)
  {
    var arrivals, n := Sent(headers, packets), |packets|;
    forall k | 0 <= k < n
      ensures EndedBy(path, reader, arrivals[k]) == Running
    {
      PlainPacketIsPut(path, reader, headers[k], packets[k]);
    }
    LoopStopsAtTheFirst(path, reader, arrivals, n);
    assert arrivals[..n] == arrivals;
    PacketsAreCommands(path, reader, headers, packets);
  }

  // ---------------------------------------------------------------------------------
  // The loop itself
  // ---------------------------------------------------------------------------------

  /** Fills the front of the buffer with a datagram, as much of it as fits. */
  method Refill(buf: array<Byte>, bytes: seq<Byte>) returns (length: nat)
    requires buf.Length == BUFFER_SIZE
    modifies buf
    ensures length <= BUFFER_SIZE && buf[..length] == Truncated(bytes)
  {
    length := if |bytes| < BUFFER_SIZE then |bytes| else BUFFER_SIZE;
    for k := 0 to length
      invariant buf[..k] == bytes[..k]
    {
      buf[k] := bytes[k];
    }
  }

  /** What is done with the first `length` bytes of the buffer; the control path indexes the
      buffer itself. */
  method Interpret(path: Path, reader: Reader, buf: array<Byte>, length: nat) returns (received: Received)
    requires length <= buf.Length == BUFFER_SIZE
    ensures received == Outcome(path, reader, buf[..length])
  {
    var parsed := reader(buf[..length]);
    match parsed {
      case None => return Ignored;
      case Some(rtp) =>
        if path == Direct {
          return PutPacket(rtp.number, rtp.payload);
        } else if rtp.payloadType == 86 {
          var number := FromBigEndian(buf[6], buf[7]);
          if length < 16 {
            return Panicked;
          }
          assert buf[16..length] == buf[..length][16..];
          return PutPacket(number, buf[16..length]);
        } else {
          return Ignored;
        }
    }
  }

  /** One turn of the loop of either receiver, over the buffer that all turns share. */
  method Receive(path: Path, reader: Reader, buf: array<Byte>, arrival: Arrival)
    returns (command: seq<Received>, end: Ending)
    requires buf.Length == BUFFER_SIZE
    modifies buf
    ensures end == EndedBy(path, reader, arrival)
    ensures end == Running ==> command == Command(path, reader, arrival.bytes)
  {
    match arrival {
      case Shutdown => return [], Closed;
      case ReceiveFailed => return [], Failed;
      case Datagram(bytes, playerListens) =>
        var length := Refill(buf, bytes);
        if length == 0 {
          return [], Closed;
        }
        var received := Interpret(path, reader, buf, length);
        match received {
          case Panicked => return [], Crashed;
          case PutPacket(_, _) => return [received], if playerListens then Running else Failed;
          case Ignored => return [], Running;
        }
    }
  }

  /** The loop: what earlier datagrams have left in the buffer never reaches a command. */
  method RunReceiver(path: Path, reader: Reader, arrivals: seq<Arrival>)
    returns (commands: seq<Received>, ending: Ending)
    ensures commands == Commands(path, reader, arrivals)
    ensures ending == LoopEnding(path, reader, arrivals)
  {
    var buf := new Byte[BUFFER_SIZE](_ => 0);
    commands := [];
    var next := 0;
    while next < |arrivals|
      invariant 0 <= next <= |arrivals|
      invariant Commands(path, reader, arrivals) == commands + Commands(path, reader, arrivals[next..])
      invariant LoopEnding(path, reader, arrivals) == LoopEnding(path, reader, arrivals[next..])
    {
      CommandsFrom(path, reader, arrivals, next);
      var command;
      command, ending := Receive(path, reader, buf, arrivals[next]);
      Regroup(commands, command, Commands(path, reader, arrivals[next + 1..]));
      if ending != Running {
        return;
      }
      commands := commands + command;
      next := next + 1;
    }
    ending := Running;
  }
}
