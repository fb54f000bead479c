/** The player task: a loop over commands whose local variables are a function of the commands
    handled so far. */
module Players {
  import opened Basics
  import opened SeqNumbers
  import opened FrameBuffers
  import opened ClearTailCbc

  datatype Encryption = Encryption(aesiv: seq<Byte>, aeskey: seq<Byte>)

  /** The commands, with what the environment contributes: whether the sockets of a set-up could be
      bound, and whether the control sender that a resend request goes to is still there to take it. */
  datatype Command =
    | Announce(fmtp: string, keys: Option<Encryption>)
    | Setup(bound: bool)
    | Record(start: Seq)
    | Teardown
    | SetParameter(level: real)
    | GetParameter
    | Flush(target: Seq)
    | PutPacket(number: Seq, packet: seq<Byte>, listening: bool)

  /** The libraries the player relies on: the AES inverse cipher function for a key, and the ALAC
      decoder that a format string describes, if it describes one. */
  datatype Libraries = Libraries(
    aes: Block -> BlockFunction,
    describesDecoder: string -> bool,
    decode: (string, seq<Byte>) -> Option<seq<int>>)

  datatype Status = Running | Stopped | Panicked

  type History = seq<Command>

  // ---------------------------------------------------------------------------------
  // What the local variables should be, read off the history
  // ---------------------------------------------------------------------------------

  /** The encryption of the latest announcement or teardown. */
  function Keys(h: History): Option<Encryption> {
    if h == [] then None
    else match h[|h| - 1]
      case Announce(_, keys) => keys
      case Teardown => None
      case _ => Keys(h[..|h| - 1])
  }

  /** The key of the latest encrypted announcement since the last teardown. */
  function CipherKey(h: History): Option<seq<Byte>> {
    if h == [] then None
    else match h[|h| - 1]
      case Announce(_, Some(keys)) => Some(keys.aeskey)
      case Teardown => None
      case _ => CipherKey(h[..|h| - 1])
  }

  function Format(libs: Libraries, h: History): Option<string> {
    if h == [] then None
    else match h[|h| - 1]
      case Announce(fmtp, _) => if libs.describesDecoder(fmtp) then Some(fmtp) else None
      case Teardown => None
      case _ => Format(libs, h[..|h| - 1])
  }

  function Volume(h: History): real {
    if h == [] then 0.0
    else match h[|h| - 1]
      case SetParameter(level) => level
      case _ => Volume(h[..|h| - 1])
  }

  function Setups(h: History): nat {
    if h == [] then 0 else Setups(h[..|h| - 1]) + (if h[|h| - 1].Setup? then 1 else 0)
  }

  /** The session of the latest set-up, unless a teardown came after it. Sessions are counted from
      0. */
  function Session(h: History): Option<nat> {
    if h == [] then None
    else match h[|h| - 1]
      case Setup(_) => Some(Setups(h[..|h| - 1]))
      case Teardown => None
      case _ => Session(h[..|h| - 1])
  }

  /** The session that resend requests go to: a teardown does not clear it. */
  function ControlSession(h: History): Option<nat> {
    if h == [] then None
    else match h[|h| - 1]
      case Setup(_) => Some(Setups(h[..|h| - 1]))
      case _ => ControlSession(h[..|h| - 1])
  }

  /** One handle of the given session, none of the others. */
  function OneAlive(sessions: nat, session: Option<nat>): (live: seq<nat>)
    ensures |live| == sessions
    ensures forall g :: 0 <= g < sessions ==> live[g] == if session == Some(g) then 1 else 0
  {
    seq(sessions, g => if session == Some(g) then 1 else 0)
  }

  /** For every session so far, how many handles of its shutdown sender are alive. The tasks of a
      session are notified when there is none left. */
  function LiveSenders(h: History): seq<nat> {
    OneAlive(Setups(h), Session(h))
  }

  predicate Recorded(h: History) {
    h != [] && (h[|h| - 1].Record? || Recorded(h[..|h| - 1]))
  }

  /** What one more command makes of each of them. */
  lemma OneMore(libs: Libraries, h: History, c: Command)
    ensures Keys(h + [c]) == if c.Announce? then c.keys else if c.Teardown? then None else Keys(h)
    ensures CipherKey(h + [c]) ==
            if c.Announce? && c.keys.Some? then Some(c.keys.value.aeskey)
            else if c.Teardown? then None else CipherKey(h)
    ensures Format(libs, h + [c]) ==
            if c.Announce? then if libs.describesDecoder(c.fmtp) then Some(c.fmtp) else None
            else if c.Teardown? then None else Format(libs, h)
    ensures Volume(h + [c]) == if c.SetParameter? then c.level else Volume(h)
    ensures Setups(h + [c]) == Setups(h) + (if c.Setup? then 1 else 0)
    ensures Session(h + [c]) == if c.Setup? then Some(Setups(h)) else if c.Teardown? then None else Session(h)
    ensures ControlSession(h + [c]) == if c.Setup? then Some(Setups(h)) else ControlSession(h)
    ensures Recorded(h + [c]) <==> c.Record? || Recorded(h)
  {
    assert (h + [c])[..|h + [c]| - 1] == h;
  }

  lemma SameSenders(libs: Libraries, h: History, c: Command)
    requires !c.Setup? && !c.Teardown?
    ensures LiveSenders(h + [c]) == LiveSenders(h)
  {
    OneMore(libs, h, c);
  }

  /** Some commands leave all of them as they are. */
  lemma NothingChanges(libs: Libraries, h: History, c: Command)
    requires c.GetParameter? || c.Flush? || c.PutPacket?
    ensures Keys(h + [c]) == Keys(h) && CipherKey(h + [c]) == CipherKey(h)
    ensures Format(libs, h + [c]) == Format(libs, h) && Volume(h + [c]) == Volume(h)
    ensures Session(h + [c]) == Session(h) && ControlSession(h + [c]) == ControlSession(h)
    ensures LiveSenders(h + [c]) == LiveSenders(h) && (Recorded(h + [c]) <==> Recorded(h))
  {
    OneMore(libs, h, c);
    SameSenders(libs, h, c);
  }

  // ---------------------------------------------------------------------------------
  // Laws of the history functions
  // ---------------------------------------------------------------------------------

  predicate Rekeys(c: Command) {
    c.Announce? || c.Teardown?
  }

  predicate Encrypted(c: Command) {
    c.Announce? && c.keys.Some?
  }

  /** There is encryption exactly when the latest announcement or teardown is an encrypted
      announcement. */
  lemma {:induction false} KeysAreTheLatest(h: History)
    ensures Keys(h).Some? <==>
            exists n :: 0 <= n < |h| && Encrypted(h[n]) && forall k :: n < k < |h| ==> !Rekeys(h[k])
  {
    if h != [] {
      var before, c := h[..|h| - 1], h[|h| - 1];
      KeysAreTheLatest(before);
      if !Rekeys(c) {
        if Keys(before).Some? {
          var n :| 0 <= n < |before| && Encrypted(before[n]) && forall k :: n < k < |before| ==> !Rekeys(before[k]);
          assert Encrypted(h[n]) && forall k :: n < k < |h| ==> !Rekeys(h[k]);
        }
        forall n | 0 <= n < |h| && Encrypted(h[n]) && forall k :: n < k < |h| ==> !Rekeys(h[k])
          ensures Keys(before).Some?
        {
          assert Encrypted(before[n]) && forall k :: n < k < |before| ==> !Rekeys(before[k]);
        }
      } else if Encrypted(c) {
        assert Encrypted(h[|h| - 1]);
      } else {
        assert Rekeys(h[|h| - 1]);
      }
    }
  }

  /** There is a cipher exactly when there was an encrypted announcement since the last teardown. */
  lemma {:induction false} CipherSurvivesUntilTeardown(h: History)
    ensures CipherKey(h).Some? <==>
            exists n :: 0 <= n < |h| && Encrypted(h[n]) && forall k :: n < k < |h| ==> !h[k].Teardown?
  {
    if h != [] {
      var before, c := h[..|h| - 1], h[|h| - 1];
      CipherSurvivesUntilTeardown(before);
      if Encrypted(c) {
        assert Encrypted(h[|h| - 1]);
      } else if c.Teardown? {
        assert h[|h| - 1].Teardown?;
      } else {
        if CipherKey(before).Some? {
          var n :| 0 <= n < |before| && Encrypted(before[n]) && forall k :: n < k < |before| ==> !before[k].Teardown?;
          assert Encrypted(h[n]) && forall k :: n < k < |h| ==> !h[k].Teardown?;
        }
        forall n | 0 <= n < |h| && Encrypted(h[n]) && forall k :: n < k < |h| ==> !h[k].Teardown?
          ensures CipherKey(before).Some?
        {
          assert Encrypted(before[n]) && forall k :: n < k < |before| ==> !before[k].Teardown?;
        }
      }
    }
  }

  /** When there is encryption, the cipher carries its key. */
  lemma {:induction false} CipherCarriesTheKey(h: History)
    requires Keys(h).Some?
    ensures CipherKey(h) == Some(Keys(h).value.aeskey)
  {
    if !h[|h| - 1].Announce? {
      CipherCarriesTheKey(h[..|h| - 1]);
    }
  }

  /** The volume is that of the latest SetParameter, or 0.0 when there was none. */
  lemma {:induction false} VolumeIsTheLatest(h: History, n: nat)
    requires n <= |h| && forall k :: n <= k < |h| ==> !h[k].SetParameter?
    ensures n == 0 ==> Volume(h) == 0.0
    ensures n > 0 && h[n - 1].SetParameter? ==> Volume(h) == h[n - 1].level
  {
    if n < |h| {
      VolumeIsTheLatest(h[..|h| - 1], n);
    }
  }

  /** The decoder is that of the latest announcement, unless its format describes none or a teardown
      came after it. */
  lemma {:induction false} FormatIsTheLatest(libs: Libraries, h: History, n: nat)
    requires n <= |h| && forall k :: n <= k < |h| ==> !Rekeys(h[k])
    ensures n == 0 ==> Format(libs, h) == None
    ensures n > 0 && h[n - 1].Teardown? ==> Format(libs, h) == None
    ensures n > 0 && h[n - 1].Announce? ==>
              Format(libs, h) == if libs.describesDecoder(h[n - 1].fmtp) then Some(h[n - 1].fmtp) else None
  {
    if n < |h| {
      FormatIsTheLatest(libs, h[..|h| - 1], n);
    }
  }

  lemma {:induction false} SessionIsTheLatest(h: History)
    ensures Session(h).Some? ==> Setups(h) > 0 && Session(h) == Some(Setups(h) - 1) == ControlSession(h)
    ensures Session(h).Some? <==>
            exists n :: 0 <= n < |h| && h[n].Setup? && forall k :: n < k < |h| ==> !h[k].Teardown?
  {
    if h != [] {
      var before, c := h[..|h| - 1], h[|h| - 1];
      SessionIsTheLatest(before);
      if c.Setup? || c.Teardown? {
        assert h[|h| - 1] == c;
      } else {
        if Session(before).Some? {
          var n :| 0 <= n < |before| && before[n].Setup? && forall k :: n < k < |before| ==> !before[k].Teardown?;
          assert h[n].Setup? && forall k :: n < k < |h| ==> !h[k].Teardown?;
        }
        forall n | 0 <= n < |h| && h[n].Setup? && forall k :: n < k < |h| ==> !h[k].Teardown?
          ensures Session(before).Some?
        {
          assert before[n].Setup? && forall k :: n < k < |before| ==> !before[k].Teardown?;
        }
      }
    }
  }

  /** Between commands only the latest session can still have a live shutdown sender, exactly one
      handle of it, and none after a teardown: all older sessions have been notified. */
  lemma OlderSessionsAreNotified(h: History, g: nat)
    requires g < Setups(h)
    ensures LiveSenders(h)[g] <= 1
    ensures LiveSenders(h)[g] == 1 <==>
            g == Setups(h) - 1 &&
            exists n :: 0 <= n < |h| && h[n].Setup? && forall k :: n < k < |h| ==> !h[k].Teardown?
  {
    SessionIsTheLatest(h);
  }

  /** Resend requests go to the latest session even after its teardown, when its tasks have been
      told to stop. */
  lemma {:induction false} RequestsGoToTheLatestSession(h: History)
    ensures ControlSession(h) == if Setups(h) == 0 then None else Some(Setups(h) - 1)
    ensures Setups(h) > 0 ==> (LiveSenders(h)[Setups(h) - 1] == 1 <==> Session(h).Some?)
  {
    if h != [] {
      RequestsGoToTheLatestSession(h[..|h| - 1]);
    }
    SessionIsTheLatest(h);
  }

  // ---------------------------------------------------------------------------------
  // Counting sender handles
  // ---------------------------------------------------------------------------------

  /** One handle of a session's sender less. */
  function Dropped(senders: seq<nat>, session: Option<nat>): (rest: seq<nat>)
    ensures |rest| == |senders|
  {
    if session.Some? && session.value < |senders| && senders[session.value] > 0 then
      senders[session.value := senders[session.value] - 1]
    else senders
  }

  /** Dropping the handle that is held leaves none of the sessions so far. */
  lemma DropsTheOnlyOne(sessions: nat, session: Option<nat>, more: seq<nat>)
    requires session.Some? ==> session.value < sessions
    ensures Dropped(OneAlive(sessions, session) + more, session) == OneAlive(sessions, None) + more
  {
    var live := OneAlive(sessions, session) + more;
    assert forall g :: 0 <= g < sessions ==> live[g] == OneAlive(sessions, session)[g];
  }

  /** The new sender has two handles for a while. */
  lemma OnlyTheNewOne(sessions: nat)
    ensures Dropped((OneAlive(sessions, None) + [1])[sessions := 2], Some(sessions)) ==
            OneAlive(sessions + 1, Some(sessions))
  {
    var live := OneAlive(sessions, None) + [1];
    assert live[sessions := 2][sessions := 1] == live;
    assert OneAlive(sessions + 1, Some(sessions)) == live;
  }

  /** The new sender has two handles while the command is handled: the local one, and the clone that
      takes the place of the previous session's. */
  lemma SetupSenders(libs: Libraries, h: History, bound: bool)
    ensures var session := Setups(h);
            var two := Dropped(LiveSenders(h) + [1], Session(h));
            && two[session] == 1
            && Dropped(two[session := 2], Some(session)) == LiveSenders(h + [Setup(bound)])
  {
    OneMore(libs, h, Setup(bound));
    SessionIsTheLatest(h);
    DropsTheOnlyOne(Setups(h), Session(h), [1]);
    OnlyTheNewOne(Setups(h));
  }

  lemma TeardownSenders(libs: Libraries, h: History)
    ensures Dropped(LiveSenders(h), Session(h)) == LiveSenders(h + [Teardown])
  {
    OneMore(libs, h, Teardown);
    SessionIsTheLatest(h);
    DropsTheOnlyOne(Setups(h), Session(h), []);
    assert LiveSenders(h) + [] == LiveSenders(h);
    assert OneAlive(Setups(h), None) + [] == OneAlive(Setups(h), None);
  }

  // ---------------------------------------------------------------------------------
  // The program
  // ---------------------------------------------------------------------------------

  /** The sample that is left of a 32-bit one: its upper half, as a signed number. */
  predicate IsUpperHalf(narrow: int, sample: int) {
    && narrow * 65536 <= sample < narrow * 65536 + 65536
    && (-0x8000_0000 <= sample < 0x8000_0000 ==> -32768 <= narrow < 32768)
  }

  /** From 32-bit to 16-bit samples: an arithmetic shift right by 16. */
  function Narrowed(samples: seq<int>): seq<int> {
    seq(|samples|, i requires 0 <= i < |samples| => samples[i] / 65536)
  }

  ghost predicate AreUpperHalves(narrow: seq<int>, samples: seq<int>) {
    |narrow| == |samples| && forall i :: 0 <= i < |samples| ==> IsUpperHalf(narrow[i], samples[i])
  }

  lemma NarrowedAreUpperHalves(samples: seq<int>)
    ensures AreUpperHalves(Narrowed(samples), samples)
  {
    forall i | 0 <= i < |samples|
      ensures IsUpperHalf(Narrowed(samples)[i], samples[i])
    {
      DivisionFloors(samples[i]);
    }
  }

  lemma DivisionFloors(sample: int)
    ensures IsUpperHalf(sample / 65536, sample)
  {
  }

  /** The samples a packet is decoded to, given the announcements before it. None is a panic: no
      encryption in force, parameters of the wrong length, or a step of the decoding that fails. */
  function DecodedSamples(libs: Libraries, h: History, packet: seq<Byte>): Option<seq<int>> {
    match (Keys(h), CipherKey(h), Format(libs, h))
    case (Some(keys), Some(key), Some(fmtp)) =>
      if |keys.aesiv| != 16 || |key| != 16 then None
      else
        (match Decrypted(libs.aes(key), keys.aesiv, packet)
         case Some(bytes) =>
           (match libs.decode(fmtp, bytes)
            case Some(samples) => Some(Narrowed(samples))
            case None => None)
         case None => None)
    case _ => None
  }

  /** Exactly when a packet can be decoded, and what it is decoded to: one sample for each of the
      decoder's, its upper half. */
  lemma DecodingSucceedsExactlyWhen(libs: Libraries, h: History, packet: seq<Byte>)
    ensures var keys, key, fmtp, data := Keys(h), CipherKey(h), Format(libs, h), DecodedSamples(libs, h, packet);
            if keys.Some? && key.Some? && fmtp.Some? && |keys.value.aesiv| == 16 == |key.value| then
              var bytes := Decrypted(libs.aes(key.value), keys.value.aesiv, packet);
              var samples := if bytes.Some? then libs.decode(fmtp.value, bytes.value) else None;
              && (data.Some? <==> samples.Some?)
              && (data.Some? ==> AreUpperHalves(data.value, samples.value))
            else data == None
  {
    if DecodedSamples(libs, h, packet).Some? {
      var bytes := Decrypted(libs.aes(CipherKey(h).value), Keys(h).value.aesiv, packet).value;
      NarrowedAreUpperHalves(libs.decode(Format(libs, h).value, bytes).value);
    }
  }

  /** End to end: what is decoded from a packet starts with what a sender holding the announced key
      put in, whenever the packet can be decrypted at all. */
  lemma DecoderSeesWhatWasSent(libs: Libraries, h: History, enc: BlockFunction, plain: seq<Byte>)
    returns (rest: seq<Byte>)
    requires Keys(h).Some? && Format(libs, h).Some?
    requires |Keys(h).value.aesiv| == 16 && |Keys(h).value.aeskey| == 16
    requires var keys := Keys(h).value;
             && Inverts(libs.aes(keys.aeskey), enc)
             && Decrypted(libs.aes(keys.aeskey), keys.aesiv, EncryptPacket(enc, keys.aesiv, plain)).Some?
    ensures var samples := libs.decode(Format(libs, h).value, plain + rest);
            var data := DecodedSamples(libs, h, EncryptPacket(enc, Keys(h).value.aesiv, plain));
            && (data.Some? <==> samples.Some?)
            && (data.Some? ==> AreUpperHalves(data.value, samples.value))
  {
    var keys := Keys(h).value;
    CipherCarriesTheKey(h);
    ClearTailRoundTrip(enc, libs.aes(keys.aeskey), keys.aesiv, plain);
    var bytes := Decrypted(libs.aes(keys.aeskey), keys.aesiv, EncryptPacket(enc, keys.aesiv, plain)).value;
    rest := bytes[|plain|..];
    assert plain + rest == bytes;
    if libs.decode(Format(libs, h).value, bytes).Some? {
      NarrowedAreUpperHalves(libs.decode(Format(libs, h).value, bytes).value);
    }
  }

  // ---------------------------------------------------------------------------------
  // What a command does to the buffer, and how it can end
  // ---------------------------------------------------------------------------------

  function WithPacket(b: Option<Buffer<int>>, s: Seq, data: seq<int>): Option<Buffer<int>> {
    if b.Some? then Some(Added(b.value, s, data)) else None
  }

  /** The range to ask for when number s comes in: the gap, unless it is empty or there is nobody to
      ask. */
  function Request(b: Option<Buffer<int>>, s: Seq, control: Option<nat>): Option<Range> {
    if b == None || Gap(b.value, s).IsEmpty() || control == None then None else Some(Gap(b.value, s))
  }

  function NextBuffer(libs: Libraries, h: History, c: Command, b: Option<Buffer<int>>): Option<Buffer<int>> {
    match c
    case Record(start) => Some(Empty(start))
    case Flush(target) => if b.Some? then Some(Flushed(b.value, target)) else None
    case PutPacket(number, packet, _) =>
      (match DecodedSamples(libs, h, packet)
       case Some(data) => WithPacket(b, number, data)
       case None => b)
    case _ => b
  }

  /** The range that a packet makes the player ask for. */
  function RequestOf(libs: Libraries, h: History, c: Command, b: Option<Buffer<int>>): Option<Range> {
    if c.PutPacket? && DecodedSamples(libs, h, c.packet).Some? then Request(b, c.number, ControlSession(h)) else None
  }

  function StatusOf(libs: Libraries, h: History, c: Command, b: Option<Buffer<int>>): Status {
    match c
    case Announce(_, Some(keys)) => if |keys.aeskey| != 16 then Panicked else Running
    case Setup(bound) => if bound then Running else Stopped
    case PutPacket(_, packet, listening) =>
      if DecodedSamples(libs, h, packet) == None then Panicked
      else if RequestOf(libs, h, c, b).Some? && !listening then Stopped
      else Running
    case _ => Running
  }

  lemma PacketIsDecodedOrNot(libs: Libraries, h: History, c: Command, b: Option<Buffer<int>>)
    requires c.PutPacket?
    ensures var data, request := DecodedSamples(libs, h, c.packet), Request(b, c.number, ControlSession(h));
            if data.Some? then
              && NextBuffer(libs, h, c, b) == WithPacket(b, c.number, data.value)
              && RequestOf(libs, h, c, b) == request
              && StatusOf(libs, h, c, b) == if request.Some? && !c.listening then Stopped else Running
            else
              NextBuffer(libs, h, c, b) == b && RequestOf(libs, h, c, b) == None && StatusOf(libs, h, c, b) == Panicked
  {
  }

  /** Nothing goes wrong with this command: a set-up finds its sockets, an announced key has the right
      length, a packet can be decoded and its control sender is there. */
  predicate Harmless(libs: Libraries, h: History, c: Command) {
    && (c.Setup? ==> c.bound)
    && (c.Announce? && c.keys.Some? ==> |c.keys.value.aeskey| == 16)
    && (c.PutPacket? ==> DecodedSamples(libs, h, c.packet).Some? && c.listening)
  }

  lemma RequestExactlyWhen(h: History, b: Option<Buffer<int>>, s: Seq)
    ensures Request(b, s, ControlSession(h)).Some? <==>
            b.Some? && Setups(h) > 0 && Less(Next(b.value.write), s)
  {
    RequestsGoToTheLatestSession(h);
  }

  lemma PacketEndsExactlyWhen(libs: Libraries, h: History, c: Command, b: Option<Buffer<int>>)
    requires c.PutPacket?
    ensures StatusOf(libs, h, c, b) == Panicked <==> DecodedSamples(libs, h, c.packet) == None
    ensures StatusOf(libs, h, c, b) == Stopped <==>
            DecodedSamples(libs, h, c.packet).Some? && !c.listening &&
            b.Some? && Setups(h) > 0 && Less(Next(b.value.write), c.number)
  {
    PacketIsDecodedOrNot(libs, h, c, b);
    RequestExactlyWhen(h, b, c.number);
  }

  /** Exactly when a command ends the player, and how. A missing control sender matters only when there
      is something to ask for. */
  lemma EndsExactlyWhen(libs: Libraries, h: History, c: Command, b: Option<Buffer<int>>)
    ensures StatusOf(libs, h, c, b) == Panicked <==>
            (c.Announce? && c.keys.Some? && |c.keys.value.aeskey| != 16) ||
            (c.PutPacket? && DecodedSamples(libs, h, c.packet) == None)
    ensures StatusOf(libs, h, c, b) == Stopped <==>
            (c.Setup? && !c.bound) ||
            (c.PutPacket? && DecodedSamples(libs, h, c.packet).Some? && !c.listening &&
             b.Some? && Setups(h) > 0 && Less(Next(b.value.write), c.number))
    ensures Harmless(libs, h, c) ==> StatusOf(libs, h, c, b) == Running
  {
    if c.PutPacket? {
      PacketEndsExactlyWhen(libs, h, c, b);
    }
  }

  /** The buffer after a history that nothing else has touched it in. */
  function BufferAfter(libs: Libraries, h: History): Option<Buffer<int>> {
    if h == [] then None
    else NextBuffer(libs, h[..|h| - 1], h[|h| - 1], BufferAfter(libs, h[..|h| - 1]))
  }

  /** The volumes reported, one entry for each command. */
  function RepliesAfter(h: History): (replies: seq<Option<real>>)
    ensures |replies| == |h|
  {
    if h == [] then []
    else RepliesAfter(h[..|h| - 1]) + [if h[|h| - 1].GetParameter? then Some(Volume(h[..|h| - 1])) else None]
  }

  /** Each is the volume of the latest SetParameter before it. */
  lemma {:induction false} RepliesAreLatest(h: History, k: nat)
    requires k < |h|
    ensures RepliesAfter(h)[k] == if h[k].GetParameter? then Some(Volume(h[..k])) else None
  {
    if k < |h| - 1 {
      RepliesAreLatest(h[..|h| - 1], k);
      assert h[..|h| - 1][..k] == h[..k];
    }
  }

  function AsSeq(request: Option<Range>): seq<Range> {
    if request.Some? then [request.value] else []
  }

  function RequestsAfter(libs: Libraries, h: History): seq<Range> {
    if h == [] then []
    else RequestsAfter(libs, h[..|h| - 1]) +
         AsSeq(RequestOf(libs, h[..|h| - 1], h[|h| - 1], BufferAfter(libs, h[..|h| - 1])))
  }

  lemma PrefixOneMore(libs: Libraries, h: History, n: nat)
    requires n < |h|
    ensures h[..n + 1] == h[..n] + [h[n]]
    ensures BufferAfter(libs, h[..n + 1]) == NextBuffer(libs, h[..n], h[n], BufferAfter(libs, h[..n]))
    ensures RequestsAfter(libs, h[..n + 1]) == RequestsAfter(libs, h[..n]) +
              AsSeq(RequestOf(libs, h[..n], h[n], BufferAfter(libs, h[..n])))
    ensures RepliesAfter(h[..n + 1]) == RepliesAfter(h[..n]) +
              [if h[n].GetParameter? then Some(Volume(h[..n])) else None]
  {
    assert h[..n + 1][..n] == h[..n];
  }

  class Player {
    const libs: Libraries
    ghost var history: History

    var airplayVolume: real
    var notifyShutdown: Option<nat>  // the session whose shutdown sender is held
    var encryption: Option<Encryption>
    var cipher: Option<Block>
    var alac: Option<string>
    var frameBuffer: FrameBuffer?<int>
    var controlTx: Option<nat>
    var senders: seq<nat>  // live handles of each session's shutdown sender

    /** All local variables are what the history says. */
    ghost predicate Valid()
      reads this
    {
      && airplayVolume == Volume(history)
      && notifyShutdown == Session(history)
      && encryption == Keys(history)
      && cipher == CipherKey(history)
      && alac == Format(libs, history)
      && (frameBuffer != null <==> Recorded(history))
      && controlTx == ControlSession(history)
      && senders == LiveSenders(history)
    }

    /** The history goes on with a command that leaves the local variables as they are. */
    ghost method Remember(c: Command)
      requires Valid() && (c.GetParameter? || c.Flush? || c.PutPacket?)
      modifies this`history
      ensures Valid() && history == old(history) + [c]
    {
      NothingChanges(libs, history, c);
      history := history + [c];
    }

    ghost function Buffered(): Option<Buffer<int>>
      reads this`frameBuffer, frameBuffer
    {
      if frameBuffer == null then None else Some(frameBuffer.Model())
    }

    constructor (libs: Libraries)
      ensures Valid() && history == [] && this.libs == libs
    {
      this.libs := libs;
      history := [];
      airplayVolume := 0.0;
      notifyShutdown := None;
      encryption := None;
      cipher := None;
      alac := None;
      frameBuffer := null;
      controlTx := None;
      senders := [];
    }

    /** A key that is not 16 bytes long makes the cipher's constructor panic. */
    method HandleAnnounce(fmtp: string, keys: Option<Encryption>) returns (status: Status)
      requires Valid()
      modifies this
      ensures status == if keys.Some? && |keys.value.aeskey| != 16 then Panicked else Running
      ensures status == Running ==> Valid() && history == old(history) + [Announce(fmtp, keys)]
      ensures frameBuffer == old(frameBuffer)
    {
      OneMore(libs, history, Announce(fmtp, keys));
      SameSenders(libs, history, Announce(fmtp, keys));
      encryption := keys;
      if encryption.Some? {
        if |encryption.value.aeskey| != 16 {
          return Panicked;
        }
        cipher := Some(encryption.value.aeskey);
      }
      alac := if libs.describesDecoder(fmtp) then Some(fmtp) else None;
      history := history + [Announce(fmtp, keys)];
      return Running;
    }

    method HandleSetup(bound: bool) returns (status: Status)
      requires Valid()
      modifies this
      ensures status == if bound then Running else Stopped
      ensures status == Running ==> Valid() && history == old(history) + [Setup(bound)]
      ensures frameBuffer == old(frameBuffer)
    {
      SetupSenders(libs, history, bound);
      OneMore(libs, history, Setup(bound));
      if !bound {
        return Stopped;
      }
      var session := |senders|;
      var live := senders + [1];
      live := Dropped(live, notifyShutdown);
      live := live[session := live[session] + 1];
      notifyShutdown := Some(session);
      controlTx := Some(session);
      live := Dropped(live, Some(session));
      senders := live;
      history := history + [Setup(bound)];
      return Running;
    }

    method HandleRecord(s: Seq) returns (source: FrameBufferSource<int>)
      requires Valid()
      modifies this
      ensures Valid() && history == old(history) + [Record(s)]
      ensures frameBuffer != null && fresh(frameBuffer) && frameBuffer.Model() == Empty(s)
      ensures fresh(source) && source.frameBuffer == frameBuffer && source.current == None
      ensures source.channels == 2 && source.sampleRate == 44100 && source.zeroValue == 0
    {
      OneMore(libs, history, Record(s));
      SameSenders(libs, history, Record(s));
      history := history + [Record(s)];
      var inner := new FrameBuffer<int>(s);
      frameBuffer := inner;
      source := new FrameBufferSource<int>(inner, 2, 44100, 0);
    }

    method HandleTeardown()
      requires Valid()
      modifies this
      ensures Valid() && history == old(history) + [Teardown]
      ensures frameBuffer == old(frameBuffer)
    {
      TeardownSenders(libs, history);
      OneMore(libs, history, Teardown);
      senders := Dropped(senders, notifyShutdown);
      notifyShutdown := None;
      encryption := None;
      cipher := None;
      alac := None;
      history := history + [Teardown];
    }

    method HandleSetParameter(level: real)
      requires Valid()
      modifies this
      ensures Valid() && history == old(history) + [SetParameter(level)]
      ensures frameBuffer == old(frameBuffer)
    {
      OneMore(libs, history, SetParameter(level));
      SameSenders(libs, history, SetParameter(level));
      airplayVolume := level;
      history := history + [SetParameter(level)];
    }

    method HandleGetParameter() returns (volume: real)
      requires Valid()
      modifies this
      ensures Valid() && history == old(history) + [GetParameter]
      ensures volume == Volume(old(history))
      ensures frameBuffer == old(frameBuffer)
    {
      volume := airplayVolume;
      Remember(GetParameter);
    }

    method HandleFlush(s: Seq)
      requires Valid()
      modifies this, frameBuffer
      ensures Valid() && history == old(history) + [Flush(s)]
      ensures frameBuffer == old(frameBuffer)
      ensures frameBuffer != null ==> frameBuffer.Model() == Flushed(old(frameBuffer.Model()), s)
    {
      if frameBuffer != null {
        var turns := frameBuffer.Flush(s);
      }
      Remember(Flush(s));
    }

    method DecodePacket(enc: Option<Encryption>, ci: Option<Block>, packet: seq<Byte>) returns (data: Option<seq<int>>)
      requires enc == Keys(history) && ci == CipherKey(history) && alac == Format(libs, history)
      ensures data == DecodedSamples(libs, history, packet)
      ensures data.Some? ==>
                && enc.Some? && ci.Some? && alac.Some? && |enc.value.aesiv| == 16
                && Decrypted(libs.aes(ci.value), enc.value.aesiv, packet).Some?
                && var samples := libs.decode(
                                    alac.value, Decrypted(libs.aes(ci.value), enc.value.aesiv, packet).value);
                   samples.Some? && AreUpperHalves(data.value, samples.value)
    {
      if enc == None || ci == None {
        return None;
      }
      if |enc.value.aesiv| != 16 {
        return None;
      }
      var decrypted := DecryptPacket(libs.aes(ci.value), enc.value.aesiv, packet);
      if decrypted == None {
        return None;
      }
      if alac == None {
        return None;
      }
      var decoded := libs.decode(alac.value, decrypted.value);
      if decoded == None {
        return None;
      }
      NarrowedAreUpperHalves(decoded.value);
      return Some(Narrowed(decoded.value));
    }

    /** Buffers a packet, and works out the resend request for the packets missing before it. */
    method BufferPacket(s: Seq, data: seq<int>) returns (request: Option<Range>)
      modifies frameBuffer
      ensures Buffered() == WithPacket(old(Buffered()), s, data)
      ensures request == Request(old(Buffered()), s, controlTx)
      ensures old(Buffered()).Some? && s == Next(old(Buffered()).value.write) ==> request == None
    {
      request := None;
      if frameBuffer != null {
        var missing := frameBuffer.AddPacket(s, data);
        if !missing.IsEmpty() {
          if controlTx.Some? {
            request := Some(missing);
          }
        }
      }
    }

    /** Takes the keys, decrypts, decodes and buffers a packet, asks for the packets missing before it,
        and puts the keys back, unless it has panicked or stopped by then. */
    method PutTaken(s: Seq, packet: seq<Byte>, listening: bool) returns (status: Status, request: Option<Range>)
      requires Valid()
      modifies this`encryption, this`cipher, frameBuffer
      ensures var c := PutPacket(s, packet, listening);
              && status == StatusOf(libs, history, c, old(Buffered()))
              && request == RequestOf(libs, history, c, old(Buffered()))
              && Buffered() == NextBuffer(libs, history, c, old(Buffered()))
      ensures status == Running ==> encryption == old(encryption) && cipher == old(cipher)
    {
      PacketIsDecodedOrNot(libs, history, PutPacket(s, packet, listening), Buffered());
      request := None;
      var enc, ci := encryption, cipher;
      encryption, cipher := None, None;
      var data := DecodePacket(enc, ci, packet);
      if data == None {
        return Panicked, None;
      }
      request := BufferPacket(s, data.value);
      if request.Some? && !listening {
        return Stopped, request;
      }
      encryption := enc;
      cipher := ci;
      return Running, request;
    }

    method HandlePutPacket(s: Seq, packet: seq<Byte>, listening: bool) returns (status: Status, request: Option<Range>)
      requires Valid()
      modifies this, frameBuffer
      ensures var c := PutPacket(s, packet, listening);
              && status == StatusOf(libs, old(history), c, old(Buffered()))
              && request == RequestOf(libs, old(history), c, old(Buffered()))
              && Buffered() == NextBuffer(libs, old(history), c, old(Buffered()))
              && (status == Running ==> Valid() && history == old(history) + [c])
      ensures frameBuffer == old(frameBuffer)
    {
      status, request := PutTaken(s, packet, listening);
      if status == Running {
        Remember(PutPacket(s, packet, listening));
      }
    }

    /** Handles one command; a Record yields the source that is handed to the audio thread. */
    method Handle(c: Command)
      returns (status: Status, reply: Option<real>, request: Option<Range>, source: FrameBufferSource?<int>)
      requires Valid()
      modifies this, frameBuffer
      ensures status == StatusOf(libs, old(history), c, old(Buffered()))
      ensures Harmless(libs, old(history), c) ==> status == Running
      ensures request == RequestOf(libs, old(history), c, old(Buffered()))
      ensures status == Running ==> Valid() && history == old(history) + [c]
      ensures status == Running ==> Buffered() == NextBuffer(libs, old(history), c, old(Buffered()))
      ensures status == Running ==> reply == if c.GetParameter? then Some(Volume(old(history))) else None
      ensures frameBuffer == old(frameBuffer) || fresh(frameBuffer)
      ensures c.Record? <==> source != null
      ensures source != null ==>
                && source.frameBuffer == frameBuffer && source.current == None
                && source.channels == 2 && source.sampleRate == 44100 && source.zeroValue == 0
    {
      EndsExactlyWhen(libs, history, c, Buffered());
      status, reply, request, source := Running, None, None, null;
      match c {
        case Announce(fmtp, keys) => status := HandleAnnounce(fmtp, keys);
        case Setup(bound) => status := HandleSetup(bound);
        case Record(start) => source := HandleRecord(start);
        case Teardown => HandleTeardown();
        case SetParameter(level) => HandleSetParameter(level);
        case GetParameter =>
          var volume := HandleGetParameter();
          reply := Some(volume);
        case Flush(target) => HandleFlush(target);
        case PutPacket(number, packet, listening) =>
          status, request := HandlePutPacket(number, packet, listening);
      }
    }

    /** The loop, given the commands it receives before it is shut down, as long as the audio thread
        does not run. It goes on as long as nothing goes wrong, and stops at the first command with
        which something does; `replies` are the volumes it has reported, `requests` the ranges it has
        asked for. */
    method Run(commands: seq<Command>)
      returns (status: Status, handled: nat, replies: seq<Option<real>>, requests: seq<Range>)
      requires Valid() && history == [] && frameBuffer == null
      modifies this
      ensures handled <= |commands|
      ensures status == Running ==> handled == |commands| && Valid() && history == commands
      ensures status == Running ==> Buffered() == BufferAfter(libs, commands)
      ensures requests == RequestsAfter(libs, commands[..handled]) && replies == RepliesAfter(commands[..handled])
      ensures (forall k :: 0 <= k < |commands| ==> Harmless(libs, commands[..k], commands[k])) ==>
                status == Running && handled == |commands|
      ensures status != Running ==>
                && handled < |commands| && !Harmless(libs, commands[..handled], commands[handled])
                && status == StatusOf(libs, commands[..handled], commands[handled],
                                      BufferAfter(libs, commands[..handled]))
    {
      status, handled, replies, requests := Running, 0, [], [];
      while handled < |commands|
        invariant 0 <= handled <= |commands|
        invariant Valid() && history == commands[..handled]
        invariant frameBuffer != null ==> fresh(frameBuffer)
        invariant Buffered() == BufferAfter(libs, commands[..handled])
        invariant requests == RequestsAfter(libs, commands[..handled]) && replies == RepliesAfter(commands[..handled])
        invariant status == Running
      {
        var reply, request, source;
        status, reply, request, source := Handle(commands[handled]);
        if status != Running {
          return;
        }
        PrefixOneMore(libs, commands, handled);
        replies := replies + [reply];
        requests := requests + AsSeq(request);
        handled := handled + 1;
      }
      assert commands[..handled] == commands;
    }
  }
}
