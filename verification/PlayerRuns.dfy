/** From commands to playout runs: the player handles commands while the audio thread drains the buffer
    of the latest Record. What the buffer goes through is a run in the sense of PlayoutRuns, so that
    the theorems about runs are theorems about what the player is told to do. */
module PlayerRuns {
  import opened Basics
  import opened SeqNumbers
  import opened FrameBuffers
  import opened PlayoutRuns
  import opened OrderedMaps
  import opened Playback
  import opened Players
  import ControlChannel
  import LossRecovery

  /** A command that the player handles, or a step of the audio thread on the source of the latest
      Record. */
  datatype Input = Do(command: Command) | Tick

  function Commands(inputs: seq<Input>): History {
    if inputs == [] then []
    else Commands(inputs[..|inputs| - 1]) + (if inputs[|inputs| - 1].Do? then [inputs[|inputs| - 1].command] else [])
  }

  function BufferOf(p: Option<Playout<int>>): Option<Buffer<int>> {
    if p.Some? then Some(p.value.buffer) else None
  }

  function NextPlay(libs: Libraries, h: History, i: Input, p: Option<Playout<int>>): Option<Playout<int>> {
    match i
    case Tick => if p.Some? then Some(AudioStep(p.value)) else None
    case Do(Record(start)) => Some(Playout(Empty(start), None, Idle, []))
    case Do(c) =>
      match NextBuffer(libs, h, c, BufferOf(p))
      case Some(b) => if p.Some? then Some(p.value.(buffer := b)) else None
      case None => None
  }

  /** The buffer of the latest Record and its source. */
  function PlayAfter(libs: Libraries, inputs: seq<Input>): Option<Playout<int>> {
    if inputs == [] then None
    else
      var before := inputs[..|inputs| - 1];
      NextPlay(libs, Commands(before), inputs[|inputs| - 1], PlayAfter(libs, before))
  }

  /** The ranges asked for since the latest Record. */
  function RequestsSince(libs: Libraries, inputs: seq<Input>): seq<Range> {
    if inputs == [] then []
    else
      var before, i := inputs[..|inputs| - 1], inputs[|inputs| - 1];
      if i.Tick? then RequestsSince(libs, before)
      else if i.command.Record? then []
      else RequestsSince(libs, before) +
           AsSeq(RequestOf(libs, Commands(before), i.command, BufferOf(PlayAfter(libs, before))))
  }

  // ---------------------------------------------------------------------------------
  // Without the audio thread it is what the loop computes
  // ---------------------------------------------------------------------------------

  function Quiet(h: History): (inputs: seq<Input>)
    ensures |inputs| == |h|
  {
    seq(|h|, i requires 0 <= i < |h| => Do(h[i]))
  }

  lemma QuietOneMore(libs: Libraries, h: History)
    requires h != []
    ensures Quiet(h)[..|h| - 1] == Quiet(h[..|h| - 1]) && Quiet(h)[|h| - 1] == Do(h[|h| - 1])
  {
  }

  /** With no audio step in between, this buffer is the one that Player.Run ends with. */
  lemma {:induction false} QuietIsTheLoop(libs: Libraries, h: History)
    ensures Commands(Quiet(h)) == h
    ensures BufferOf(PlayAfter(libs, Quiet(h))) == BufferAfter(libs, h)
  {
    if h != [] {
      var before, c := h[..|h| - 1], h[|h| - 1];
      QuietOneMore(libs, h);
      QuietIsTheLoop(libs, before);
    }
  }

  lemma QuietRequestsOneMore(libs: Libraries, h: History, c: Command)
    requires BufferOf(PlayAfter(libs, Quiet(h))) == BufferAfter(libs, h) && Commands(Quiet(h)) == h
    ensures RequestsSince(libs, Quiet(h + [c])) ==
            if c.Record? then []
            else RequestsSince(libs, Quiet(h)) + AsSeq(RequestOf(libs, h, c, BufferAfter(libs, h)))
  {
    QuietOneMore(libs, h + [c]);
    assert (h + [c])[..|h|] == h;
  }

  lemma RequestsAfterOneMore(libs: Libraries, h: History, c: Command)
    ensures RequestsAfter(libs, h + [c]) ==
            RequestsAfter(libs, h) + AsSeq(RequestOf(libs, h, c, BufferAfter(libs, h)))
  {
    assert (h + [c])[..|h + [c]| - 1] == h;
  }

  lemma RegroupRequests(a: seq<Range>, b: seq<Range>, c: seq<Range>)
    ensures (a + b) + c == a + (b + c)
  {
  }

  lemma QuietStep(libs: Libraries, h: History, c: Command, earlier: seq<Range>) returns (before: seq<Range>)
    requires BufferOf(PlayAfter(libs, Quiet(h))) == BufferAfter(libs, h) && Commands(Quiet(h)) == h
    requires RequestsAfter(libs, h) == earlier + RequestsSince(libs, Quiet(h))
    ensures RequestsAfter(libs, h + [c]) == before + RequestsSince(libs, Quiet(h + [c]))
  {
    var request := AsSeq(RequestOf(libs, h, c, BufferAfter(libs, h)));
    QuietRequestsOneMore(libs, h, c);
    if c.Record? {
      before := RequestsAfter(libs, h + [c]);
      assert before + [] == before;
    } else {
      before := earlier;
      RequestsAfterOneMore(libs, h, c);
      RegroupRequests(earlier, RequestsSince(libs, Quiet(h)), request);
    }
  }

  /** The requests of the loop end with those since the latest Record. */
  ghost predicate EndsWithThese(libs: Libraries, h: History, earlier: seq<Range>) {
    RequestsAfter(libs, h) == earlier + RequestsSince(libs, Quiet(h))
  }

  lemma QuietNext(libs: Libraries, h: History, c: Command, earlier: seq<Range>) returns (before: seq<Range>)
    requires EndsWithThese(libs, h, earlier)
    ensures EndsWithThese(libs, h + [c], before)
  {
    QuietIsTheLoop(libs, h);
    before := QuietStep(libs, h, c, earlier);
  }

  lemma QuietStart(libs: Libraries)
    ensures EndsWithThese(libs, [], [])
  {
    assert Quiet([]) == [];
  }

  lemma LastOfAll<T>(h: seq<T>)
    requires h != []
    ensures h[..|h| - 1] + [h[|h| - 1]] == h
  {
  }

  lemma {:induction false} QuietEnds(libs: Libraries, h: History) returns (earlier: seq<Range>)
    ensures EndsWithThese(libs, h, earlier)
  {
    if h == [] {
      QuietStart(libs);
      earlier := [];
    } else {
      earlier := QuietEnds(libs, h[..|h| - 1]);
      earlier := QuietNext(libs, h[..|h| - 1], h[|h| - 1], earlier);
      LastOfAll(h);
    }
  }

  /** And its requests are the last ones that Player.Run has made. */
  lemma QuietRequestsAreTheLoops(libs: Libraries, h: History) returns (earlier: seq<Range>)
    ensures RequestsAfter(libs, h) == earlier + RequestsSince(libs, Quiet(h))
  {
    earlier := QuietEnds(libs, h);
  }

  // ---------------------------------------------------------------------------------
  // The events of a run
  // ---------------------------------------------------------------------------------

  /** The number that an input carries. */
  function NumberOf(i: Input): Option<Seq> {
    match i
    case Do(Record(start)) => Some(start)
    case Do(Flush(target)) => Some(target)
    case Do(PutPacket(number, _, _)) => Some(number)
    case _ => None
  }

  /** The names are indices for the numbers that the inputs carry. */
  ghost predicate Names(inputs: seq<Input>, names: seq<int>) {
    && |names| == |inputs|
    && forall n :: 0 <= n < |inputs| && NumberOf(inputs[n]).Some? ==> Wrap(names[n]) == NumberOf(inputs[n]).value
  }

  /** What one input other than a Record is in the run. */
  function EventOf(libs: Libraries, h: History, i: Input, name: int): seq<Event<int>> {
    match i
    case Tick => [Audio]
    case Do(Flush(_)) => [FlushTo(name)]
    case Do(PutPacket(_, packet, _)) =>
      (match DecodedSamples(libs, h, packet)
       case Some(data) => [Arrive(name, data)]
       case None => [])
    case _ => []
  }

  /** The run since the latest Record: the index it starts at and its events. */
  function RunOf(libs: Libraries, inputs: seq<Input>, names: seq<int>): (int, seq<Event<int>>)
    requires |names| == |inputs|
  {
    if inputs == [] then (0, [])
    else
      var before, i, name := inputs[..|inputs| - 1], inputs[|inputs| - 1], names[|names| - 1];
      if i.Do? && i.command.Record? then (name, [])
      else
        var (r0, es) := RunOf(libs, before, names[..|names| - 1]);
        (r0, es + EventOf(libs, Commands(before), i, name))
  }

  lemma OtherThanRecord(libs: Libraries, h: History, c: Command, p: Playout<int>)
    requires !c.Record?
    ensures NextPlay(libs, h, Do(c), Some(p)) ==
            match NextBuffer(libs, h, c, Some(p.buffer))
            case Some(b) => Some(p.(buffer := b))
            case None => None
  {
  }

  lemma PacketIsAdded(libs: Libraries, h: History, c: Command, p: Playout<int>)
    requires c.PutPacket?
    ensures NextPlay(libs, h, Do(c), Some(p)) ==
            match DecodedSamples(libs, h, c.packet)
            case Some(data) => Some(p.(buffer := Added(p.buffer, c.number, data)))
            case None => Some(p)
  {
    OtherThanRecord(libs, h, c, p);
    PacketIsDecodedOrNot(libs, h, c, Some(p.buffer));
  }

  lemma ArrivalIsEvent(libs: Libraries, h: History, c: Command, name: int, r0: int, es: seq<Event<int>>)
    requires c.PutPacket? && Wrap(name) == c.number
    ensures NextPlay(libs, h, Do(c), Some(Exec(r0, es).play)) ==
            Some(Exec(r0, es + EventOf(libs, h, Do(c), name)).play)
  {
    PacketIsAdded(libs, h, c, Exec(r0, es).play);
    match DecodedSamples(libs, h, c.packet)
    case Some(data) => ExecOneMore(r0, es, Arrive(name, data));
    case None => assert es + [] == es;
  }

  lemma InputIsEvent(libs: Libraries, h: History, i: Input, name: int, r0: int, es: seq<Event<int>>)
    requires NumberOf(i).Some? ==> Wrap(name) == NumberOf(i).value
    requires !(i.Do? && i.command.Record?)
    ensures NextPlay(libs, h, i, Some(Exec(r0, es).play)) == Some(Exec(r0, es + EventOf(libs, h, i, name)).play)
  {
    if i.Tick? {
      ExecOneMore(r0, es, Audio);
    } else if i.command.Flush? {
      ExecOneMore(r0, es, FlushTo(name));
    } else if i.command.PutPacket? {
      ArrivalIsEvent(libs, h, i.command, name, r0, es);
    } else {
      assert es + [] == es;
    }
  }

  lemma NamesBefore(inputs: seq<Input>, names: seq<int>)
    requires Names(inputs, names) && inputs != []
    ensures Names(inputs[..|inputs| - 1], names[..|names| - 1])
    ensures var i := inputs[|inputs| - 1];
            NumberOf(i).Some? ==> Wrap(names[|names| - 1]) == NumberOf(i).value
  {
  }

  lemma RecordedOneMore(inputs: seq<Input>)
    requires inputs != []
    ensures var i := inputs[|inputs| - 1];
            Recorded(Commands(inputs)) <==>
            (i.Do? && i.command.Record?) || Recorded(Commands(inputs[..|inputs| - 1]))
  {
    var h, i := Commands(inputs[..|inputs| - 1]), inputs[|inputs| - 1];
    if i.Do? {
      assert (h + [i.command])[..|h|] == h;
    } else {
      assert h + [] == h;
    }
  }

  /** Whatever the player is told to do, and whenever the audio thread steps in: buffer and source are
      in the state of the run since the latest Record. */
  lemma {:induction false} PlayerRunIsARun(libs: Libraries, inputs: seq<Input>, names: seq<int>)
    requires Names(inputs, names)
    ensures var (r0, es) := RunOf(libs, inputs, names);
            PlayAfter(libs, inputs) == if Recorded(Commands(inputs)) then Some(Exec(r0, es).play) else None
  {
    if inputs != [] {
      var before, i, name := inputs[..|inputs| - 1], inputs[|inputs| - 1], names[|names| - 1];
      NamesBefore(inputs, names);
      RecordedOneMore(inputs);
      PlayerRunIsARun(libs, before, names[..|names| - 1]);
      if !(i.Do? && i.command.Record?) {
        var (r0, es) := RunOf(libs, before, names[..|names| - 1]);
        InputIsEvent(libs, Commands(before), i, name, r0, es);
      }
    }
  }

  // ---------------------------------------------------------------------------------
  // End to end
  // ---------------------------------------------------------------------------------

  /** A session had been set up when the latest Record came. */
  predicate SetUpFirst(inputs: seq<Input>) {
    inputs != [] &&
    var before, i := inputs[..|inputs| - 1], inputs[|inputs| - 1];
    if i.Do? && i.command.Record? then Setups(Commands(before)) > 0 else SetUpFirst(before)
  }

  lemma {:induction false} ThereIsControl(libs: Libraries, inputs: seq<Input>)
    requires SetUpFirst(inputs)
    ensures ControlSession(Commands(inputs)).Some?
  {
    var before, i := inputs[..|inputs| - 1], inputs[|inputs| - 1];
    if i.Do? && i.command.Record? {
      RequestsGoToTheLatestSession(Commands(before));
    } else {
      ThereIsControl(libs, before);
    }
    if i.Do? {
      OneMore(libs, Commands(before), i.command);
    } else {
      assert Commands(before) + [] == Commands(before);
    }
  }

  /** One of these requests, on the wire, names this number. */
  ghost predicate Asked(requests: seq<Range>, s: Seq) {
    exists n :: 0 <= n < |requests| && s in ControlChannel.Requested(ControlChannel.ResendRequest(requests[n]))
  }

  ghost predicate AskedFor(requests: seq<Range>, k: int) {
    Asked(requests, Wrap(k))
  }

  lemma AskedForMore(requests: seq<Range>, more: seq<Range>, k: int)
    requires AskedFor(requests, k) || AskedFor(more, k)
    ensures AskedFor(requests + more, k)
  {
    if AskedFor(requests, k) {
      var n :| 0 <= n < |requests| &&
               Wrap(k) in ControlChannel.Requested(ControlChannel.ResendRequest(requests[n]));
      assert (requests + more)[n] == requests[n];
    } else {
      var n :| 0 <= n < |more| && Wrap(k) in ControlChannel.Requested(ControlChannel.ResendRequest(more[n]));
      assert (requests + more)[|requests| + n] == more[n];
    }
  }

  /** What an arrival reports is asked for by the player's request. */
  lemma ReportIsAskedFor(b: Buffer<int>, i: int, k: int, control: nat)
    requires k in Unwound(Gap(b, Wrap(i)), i)
    ensures AskedFor(AsSeq(Request(Some(b), Wrap(i), Some(control))), k)
  {
    LossRecovery.UnwoundIsRequested(b, i, k);
    assert AsSeq(Request(Some(b), Wrap(i), Some(control))) == [Gap(b, Wrap(i))];
    assert [Gap(b, Wrap(i))][0] == Gap(b, Wrap(i));
  }

  lemma {:induction false} SetUpIsRecorded(inputs: seq<Input>)
    requires SetUpFirst(inputs)
    ensures Recorded(Commands(inputs))
  {
    RecordedOneMore(inputs);
    if !(inputs[|inputs| - 1].Do? && inputs[|inputs| - 1].command.Record?) {
      SetUpIsRecorded(inputs[..|inputs| - 1]);
    }
  }

  lemma NewReportIsAnArrival(
      libs: Libraries, h: History, i: Input, name: int, r0: int, es: seq<Event<int>>, k: int)
    requires k !in Exec(r0, es).reported && k in Exec(r0, es + EventOf(libs, h, i, name)).reported
    ensures i.Do? && i.command.PutPacket? && DecodedSamples(libs, h, i.command.packet).Some?
    ensures k in Unwound(Gap(Exec(r0, es).play.buffer, Wrap(name)), name)
  {
    var more := EventOf(libs, h, i, name);
    assert es + [] == es;
    if more != [] {
      assert more == [more[0]];
      ExecOneMore(r0, es, more[0]);
    }
  }

  lemma BufferIsOfTheRun(libs: Libraries, inputs: seq<Input>, names: seq<int>)
    requires Names(inputs, names) && SetUpFirst(inputs)
    ensures var (r0, es) := RunOf(libs, inputs, names);
            BufferOf(PlayAfter(libs, inputs)) == Some(Exec(r0, es).play.buffer)
  {
    SetUpIsRecorded(inputs);
    PlayerRunIsARun(libs, inputs, names);
  }

  lemma ArrivalIsAskedFor(libs: Libraries, h: History, c: Command, b: Buffer<int>, name: int, k: int)
    requires c.PutPacket? && DecodedSamples(libs, h, c.packet).Some? && ControlSession(h).Some?
    requires Wrap(name) == c.number && k in Unwound(Gap(b, Wrap(name)), name)
    ensures AskedFor(AsSeq(RequestOf(libs, h, c, Some(b))), k)
  {
    ReportIsAskedFor(b, name, k, ControlSession(h).value);
  }

  lemma NewReportIsAskedFor(
      libs: Libraries, before: seq<Input>, names: seq<int>, i: Input, name: int, k: int)
    requires Names(before, names) && SetUpFirst(before)
    requires NumberOf(i).Some? ==> Wrap(name) == NumberOf(i).value
    requires var (r0, es) := RunOf(libs, before, names);
             && k !in Exec(r0, es).reported
             && k in Exec(r0, es + EventOf(libs, Commands(before), i, name)).reported
    ensures i.Do?
    ensures AskedFor(AsSeq(RequestOf(libs, Commands(before), i.command, BufferOf(PlayAfter(libs, before)))), k)
  {
    var (r0, es) := RunOf(libs, before, names);
    var h := Commands(before);
    NewReportIsAnArrival(libs, h, i, name, r0, es, k);
    BufferIsOfTheRun(libs, before, names);
    ThereIsControl(libs, before);
    ArrivalIsAskedFor(libs, h, i.command, Exec(r0, es).play.buffer, name, k);
  }

  /** Every index reported in the run has been asked for by one of the player's requests. */
  lemma {:induction false} ReportsAreAskedFor(libs: Libraries, inputs: seq<Input>, names: seq<int>, k: int)
    requires Names(inputs, names) && SetUpFirst(inputs)
    requires k in Exec(RunOf(libs, inputs, names).0, RunOf(libs, inputs, names).1).reported
    ensures AskedFor(RequestsSince(libs, inputs), k)
  {
    var before, i, name := inputs[..|inputs| - 1], inputs[|inputs| - 1], names[|names| - 1];
    var (r0, es) := RunOf(libs, before, names[..|names| - 1]);
    NamesBefore(inputs, names);
    if !(i.Do? && i.command.Record?) {
      if k in Exec(r0, es).reported {
        ReportsAreAskedFor(libs, before, names[..|names| - 1], k);
        if i.Do? {
          AskedForMore(RequestsSince(libs, before),
                       AsSeq(RequestOf(libs, Commands(before), i.command, BufferOf(PlayAfter(libs, before)))), k);
        }
      } else {
        NewReportIsAskedFor(libs, before, names[..|names| - 1], i, name, k);
        AskedForMore(RequestsSince(libs, before),
                     AsSeq(RequestOf(libs, Commands(before), i.command, BufferOf(PlayAfter(libs, before)))), k);
      }
    }
  }

  lemma RunOneMore(libs: Libraries, before: seq<Input>, names: seq<int>, i: Input, name: int)
    requires |names| == |before|
    ensures |names + [name]| == |before + [i]|
    ensures RunOf(libs, before + [i], names + [name]) ==
            if i.Do? && i.command.Record? then (name, [])
            else
              var (r0, es) := RunOf(libs, before, names);
              (r0, es + EventOf(libs, Commands(before), i, name))
    ensures Commands(before + [i]) == Commands(before) + (if i.Do? then [i.command] else [])
  {
    assert (before + [i])[..|before|] == before && (names + [name])[..|names|] == names;
  }

  /** What each input is in the run: a Record starts it anew at its index; a Flush walks to its target; a
      packet that can be decoded arrives with its samples; a step of the audio thread is one; and nothing
      else is part of it. */
  lemma InputsAreEvents(libs: Libraries, before: seq<Input>, names: seq<int>, i: Input, name: int)
    requires |names| == |before|
    ensures |names + [name]| == |before + [i]|
    ensures var (r0, es) := RunOf(libs, before, names);
            var run, h := RunOf(libs, before + [i], names + [name]), Commands(before);
            if i.Tick? then run == (r0, es + [Audio])
            else if i.command.Record? then run == (name, [])
            else if i.command.Flush? then run == (r0, es + [FlushTo(name)])
            else if i.command.PutPacket? && DecodedSamples(libs, h, i.command.packet).Some? then
              run == (r0, es + [Arrive(name, DecodedSamples(libs, h, i.command.packet).value)])
            else run == (r0, es)
  {
    RunOneMore(libs, before, names, i, name);
    var es := RunOf(libs, before, names).1;
    assert es + [] == es;
  }

  lemma RequestIsOfAReport(libs: Libraries, h: History, c: Command, b: Option<Buffer<int>>, name: int, s: Seq)
    returns (k: int)
    requires c.PutPacket? ==> Wrap(name) == c.number
    requires Asked(AsSeq(RequestOf(libs, h, c, b)), s)
    ensures c.PutPacket? && DecodedSamples(libs, h, c.packet).Some? && b.Some?
    ensures k in Unwound(Gap(b.value, Wrap(name)), name) && Wrap(k) == s
  {
    k := LossRecovery.RequestedIsUnwound(b.value, name, s);
  }

  lemma AskedInOne(requests: seq<Range>, more: seq<Range>, s: Seq)
    requires Asked(requests + more, s)
    ensures Asked(requests, s) || Asked(more, s)
  {
    var n :| 0 <= n < |requests + more| &&
             s in ControlChannel.Requested(ControlChannel.ResendRequest((requests + more)[n]));
    if n < |requests| {
      assert (requests + more)[n] == requests[n];
    } else {
      assert (requests + more)[n] == more[n - |requests|];
    }
  }

  lemma ArrivalReports(libs: Libraries, h: History, i: Input, name: int, r0: int, es: seq<Event<int>>, k: int)
    requires i.Do? && i.command.PutPacket? && DecodedSamples(libs, h, i.command.packet).Some?
    requires k in Unwound(Gap(Exec(r0, es).play.buffer, Wrap(name)), name)
    ensures k in Exec(r0, es + EventOf(libs, h, i, name)).reported
  {
    ExecOneMore(r0, es, Arrive(name, DecodedSamples(libs, h, i.command.packet).value));
  }

  /** The request that this input brings about names this number. */
  ghost predicate AskedBy(libs: Libraries, h: History, i: Input, b: Option<Buffer<int>>, s: Seq) {
    i.Do? && !i.command.Record? && Asked(AsSeq(RequestOf(libs, h, i.command, b)), s)
  }

  lemma RequestMeansReport(
      libs: Libraries, h: History, i: Input, name: int, r0: int, es: seq<Event<int>>, b: Option<Buffer<int>>, s: Seq)
    returns (k: int)
    requires AskedBy(libs, h, i, b, s) && (NumberOf(i).Some? ==> Wrap(name) == NumberOf(i).value)
    requires b.Some? ==> b.value == Exec(r0, es).play.buffer
    ensures k in Exec(r0, es + EventOf(libs, h, i, name)).reported && Wrap(k) == s
  {
    k := RequestIsOfAReport(libs, h, i.command, b, name, s);
    ArrivalReports(libs, h, i, name, r0, es, k);
  }

  lemma BufferIfAny(libs: Libraries, inputs: seq<Input>, names: seq<int>)
    requires Names(inputs, names)
    ensures var (r0, es) := RunOf(libs, inputs, names);
            var b := BufferOf(PlayAfter(libs, inputs));
            b.Some? ==> b.value == Exec(r0, es).play.buffer
  {
    PlayerRunIsARun(libs, inputs, names);
  }

  lemma ReportsStay(r0: int, es: seq<Event<int>>, more: seq<Event<int>>, k: int)
    requires k in Exec(r0, es).reported && |more| <= 1
    ensures k in Exec(r0, es + more).reported
  {
    if more == [] {
      assert es + more == es;
    } else {
      assert more == [more[0]];
      ExecOneMore(r0, es, more[0]);
    }
  }

  lemma RequestsOneMore(libs: Libraries, before: seq<Input>, c: Command)
    requires !c.Record?
    ensures RequestsSince(libs, before + [Do(c)]) ==
            RequestsSince(libs, before) + AsSeq(RequestOf(libs, Commands(before), c, BufferOf(PlayAfter(libs, before))))
  {
    assert (before + [Do(c)])[..|before|] == before;
  }

  ghost predicate IsReport(libs: Libraries, inputs: seq<Input>, names: seq<int>, k: int, s: Seq)
    requires |names| == |inputs|
  {
    var (r0, es) := RunOf(libs, inputs, names);
    k in Exec(r0, es).reported && Wrap(k) == s
  }

  lemma ReportStaysReport(
      libs: Libraries, before: seq<Input>, names: seq<int>, i: Input, name: int, k: int, s: Seq)
    requires |names| == |before| && IsReport(libs, before, names, k, s) && !(i.Do? && i.command.Record?)
    ensures |names + [name]| == |before + [i]| && IsReport(libs, before + [i], names + [name], k, s)
  {
    var (r0, es) := RunOf(libs, before, names);
    RunOneMore(libs, before, names, i, name);
    ReportsStay(r0, es, EventOf(libs, Commands(before), i, name), k);
  }

  lemma ReportOneMore(
      libs: Libraries, before: seq<Input>, names: seq<int>, i: Input, name: int, k: int, s: Seq)
    requires |names| == |before| && !(i.Do? && i.command.Record?) && Wrap(k) == s
    requires var (r0, es) := RunOf(libs, before, names);
             k in Exec(r0, es + EventOf(libs, Commands(before), i, name)).reported
    ensures |names + [name]| == |before + [i]| && IsReport(libs, before + [i], names + [name], k, s)
  {
    RunOneMore(libs, before, names, i, name);
  }

  lemma NowMeansReport(libs: Libraries, before: seq<Input>, names: seq<int>, i: Input, name: int, s: Seq)
    returns (k: int)
    requires Names(before, names) && (NumberOf(i).Some? ==> Wrap(name) == NumberOf(i).value)
    requires AskedBy(libs, Commands(before), i, BufferOf(PlayAfter(libs, before)), s)
    ensures var (r0, es) := RunOf(libs, before, names);
            k in Exec(r0, es + EventOf(libs, Commands(before), i, name)).reported && Wrap(k) == s
  {
    var r0, es := RunOf(libs, before, names).0, RunOf(libs, before, names).1;
    BufferIfAny(libs, before, names);
    k := RequestMeansReport(libs, Commands(before), i, name, r0, es, BufferOf(PlayAfter(libs, before)), s);
  }

  lemma RequestIsReport(libs: Libraries, before: seq<Input>, names: seq<int>, i: Input, name: int, s: Seq)
    returns (k: int)
    requires Names(before, names) && (NumberOf(i).Some? ==> Wrap(name) == NumberOf(i).value)
    requires AskedBy(libs, Commands(before), i, BufferOf(PlayAfter(libs, before)), s)
    ensures |names + [name]| == |before + [i]| && IsReport(libs, before + [i], names + [name], k, s)
  {
    k := NowMeansReport(libs, before, names, i, name, s);
    ReportOneMore(libs, before, names, i, name, k, s);
  }

  lemma AskedBeforeOrNow(libs: Libraries, before: seq<Input>, i: Input, s: Seq) returns (now: bool)
    requires Asked(RequestsSince(libs, before + [i]), s)
    ensures !(i.Do? && i.command.Record?)
    ensures if now then AskedBy(libs, Commands(before), i, BufferOf(PlayAfter(libs, before)), s)
            else Asked(RequestsSince(libs, before), s)
  {
    assert (before + [i])[..|before|] == before;
    now := false;
    if i.Do? && !i.command.Record? {
      RequestsOneMore(libs, before, i.command);
      AskedInOne(RequestsSince(libs, before),
                 AsSeq(RequestOf(libs, Commands(before), i.command, BufferOf(PlayAfter(libs, before)))), s);
      now := !Asked(RequestsSince(libs, before), s);
    }
  }

  lemma NextReport(
      libs: Libraries, before: seq<Input>, names: seq<int>, i: Input, name: int, s: Seq, earlier: int)
    returns (k: int)
    requires Names(before, names) && (NumberOf(i).Some? ==> Wrap(name) == NumberOf(i).value)
    requires Asked(RequestsSince(libs, before + [i]), s)
    requires Asked(RequestsSince(libs, before), s) ==> IsReport(libs, before, names, earlier, s)
    ensures |names + [name]| == |before + [i]| && IsReport(libs, before + [i], names + [name], k, s)
  {
    var now := AskedBeforeOrNow(libs, before, i, s);
    if now {
      k := RequestIsReport(libs, before, names, i, name, s);
    } else {
      ReportStaysReport(libs, before, names, i, name, earlier, s);
      k := earlier;
    }
  }

  lemma {:induction false} AskedIsReport(libs: Libraries, inputs: seq<Input>, names: seq<int>, s: Seq)
    returns (k: int)
    requires Names(inputs, names) && Asked(RequestsSince(libs, inputs), s)
    ensures IsReport(libs, inputs, names, k, s)
  {
    var before, ns := inputs[..|inputs| - 1], names[..|names| - 1];
    NamesBefore(inputs, names);
    LastOfAll(inputs);
    LastOfAll(names);
    k := 0;
    if Asked(RequestsSince(libs, before), s) {
      k := AskedIsReport(libs, before, ns, s);
    }
    k := NextReport(libs, before, ns, inputs[|inputs| - 1], names[|names| - 1], s, k);
  }

  /** The player asks for nothing that is not missing: each number it asks for since the latest Record is
      that of an index reported in the run. */
  lemma OnlyReportsAreAskedFor(libs: Libraries, inputs: seq<Input>, names: seq<int>, s: Seq) returns (k: int)
    requires Names(inputs, names) && Asked(RequestsSince(libs, inputs), s)
    ensures var (r0, es) := RunOf(libs, inputs, names);
            k in Exec(r0, es).reported && Wrap(k) == s
  {
    k := AskedIsReport(libs, inputs, names, s);
  }

  lemma InOrderIsNoRequest(libs: Libraries, h: History, c: Command, b: Buffer<int>)
    requires c.PutPacket? && c.number == Next(b.write)
    ensures RequestOf(libs, h, c, Some(b)) == None
  {
  }

  lemma InOrderAddsNothing(libs: Libraries, before: seq<Input>, c: Command, b: Buffer<int>)
    requires c.PutPacket? && c.number == Next(b.write) && BufferOf(PlayAfter(libs, before)) == Some(b)
    ensures RequestsSince(libs, before + [Do(c)]) == RequestsSince(libs, before)
  {
    InOrderIsNoRequest(libs, Commands(before), c, b);
    RequestsOneMore(libs, before, c);
    NothingMore(RequestsSince(libs, before));
  }

  /** A packet directly after the one before makes the player ask for nothing. */
  lemma PacketInOrderAsksNothing(libs: Libraries, before: seq<Input>, names: seq<int>, c: Command)
    requires Names(before, names) && Recorded(Commands(before)) && c.PutPacket?
    requires var (r0, es) := RunOf(libs, before, names);
             c.number == Wrap(Exec(r0, es).writeIndex + 1)
    ensures RequestsSince(libs, before + [Do(c)]) == RequestsSince(libs, before)
  {
    var run := Exec(RunOf(libs, before, names).0, RunOf(libs, before, names).1);
    WriteMarkerIsIndex(libs, before, names);
    WrapNext(run.writeIndex);
    InOrderAddsNothing(libs, before, c, run.play.buffer);
  }

  lemma WriteMarkerIsIndex(libs: Libraries, inputs: seq<Input>, names: seq<int>)
    requires Names(inputs, names) && Recorded(Commands(inputs))
    ensures var (r0, es) := RunOf(libs, inputs, names);
            && BufferOf(PlayAfter(libs, inputs)) == Some(Exec(r0, es).play.buffer)
            && Exec(r0, es).play.buffer.write == Wrap(Exec(r0, es).writeIndex)
  {
    var (r0, es) := RunOf(libs, inputs, names);
    PlayerRunIsARun(libs, inputs, names);
    MarkersStayImages(r0, es);
  }

  lemma NothingMore(requests: seq<Range>)
    ensures requests + AsSeq(None) == requests
  {
  }

  /** No packet is forgotten: in a player that was set up before it was told to record, every index
      after the first, up to the highest that was put since, has been put or has been asked for. */
  lemma EveryPacketIsPutOrAskedFor(libs: Libraries, inputs: seq<Input>, names: seq<int>, k: int)
    requires Names(inputs, names) && SetUpFirst(inputs)
    requires var (r0, es) := RunOf(libs, inputs, names);
             Follows(NearWriter, r0, es) && r0 < k <= Exec(r0, es).top
    ensures var (r0, es) := RunOf(libs, inputs, names);
            k in Exec(r0, es).packets || AskedFor(RequestsSince(libs, inputs), k)
  {
    var (r0, es) := RunOf(libs, inputs, names);
    LossRecovery.EveryIndexArrivedOrReported(r0, es, k);
    if k in Exec(r0, es).reported {
      ReportsAreAskedFor(libs, inputs, names, k);
    }
  }

  /** And what is heard since the latest Record is what was decoded, in order: the samples heard and
      those in hand are the decoded packets of the played indices joined together, also when the
      packets are kept in the ordered map. */
  lemma PlayerPlaysInOrder(libs: Libraries, inputs: seq<Input>, names: seq<int>, picks: Picks)
    requires Names(inputs, names) && Recorded(Commands(inputs))
    requires var (r0, es) := RunOf(libs, inputs, names);
             Follows(AheadOfReader, r0, es)
    ensures var (r0, es) := RunOf(libs, inputs, names);
            var run, p := Exec(r0, es), PlayAfter(libs, inputs);
            && p.Some? && SamePlay(OrderedExec(r0, es, picks), p.value)
            && Audible(p.value.out) + Rest(p.value.current) == Joined(run.packets, run.played)
            && (forall a, b :: 0 <= a < b < |run.played| ==> run.played[a] < run.played[b])
  {
    var (r0, es) := RunOf(libs, inputs, names);
    PlayerRunIsARun(libs, inputs, names);
    InTheWindowOrderedIsAMap(r0, es, picks);
    OrderHolds(r0, es);
  }
}
