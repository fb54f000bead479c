/** What the audio thread plays: packets in index order, each at most once, with silence only where a
    packet is missing or empty. The theorems are about what comes out of the program over the ordered
    map, whichever comparisons that map makes. */
module Playback {
  import opened SeqNumbers
  import opened Basics
  import opened FrameBuffers
  import opened PlayoutRuns
  import opened OrderedMaps

  /** The emitted samples with the silence taken out. */
  function Audible<S>(out: seq<Emission<S>>): seq<S> {
    if out == [] then []
    else Audible(out[..|out| - 1]) +
         (match out[|out| - 1]
          case Sample(v) => [v]
          case Silence => [])
  }

  /** What the packet in hand has still to deliver. */
  function Rest<S>(current: Option<seq<S>>): seq<S> {
    if current.Some? then current.value else []
  }

  /** The packets with the given indices, one after the other. */
  function Joined<S>(packets: map<int, seq<S>>, ks: seq<int>): seq<S> {
    if ks == [] then []
    else Joined(packets, ks[..|ks| - 1]) +
         (var k := ks[|ks| - 1]; if k in packets then packets[k] else [])
  }

  /** The indices a run has jumped over by flushing. */
  function Skipped<S>(r0: int, es: seq<Event<S>>): set<int> {
    if es == [] then {}
    else Skipped(r0, es[..|es| - 1]) + SkippedBy(Exec(r0, es[..|es| - 1]), es[|es| - 1])
  }

  lemma {:induction false} JoinedIgnoresOthers<S>(packets: map<int, seq<S>>, more: map<int, seq<S>>, ks: seq<int>)
    requires forall k :: k in ks ==> (k in packets <==> k in more) && (k in packets ==> packets[k] == more[k])
    ensures Joined(packets, ks) == Joined(more, ks)
  {
    if ks != [] {
      JoinedIgnoresOthers(packets, more, ks[..|ks| - 1]);
      assert ks[|ks| - 1] in ks;
    }
  }

  lemma {:induction false} JoinedConcat<S>(packets: map<int, seq<S>>, ks: seq<int>, more: seq<int>)
    ensures Joined(packets, ks + more) == Joined(packets, ks) + Joined(packets, more)
  {
    if more == [] {
      assert ks + more == ks;
    } else {
      assert (ks + more)[..|ks + more| - 1] == ks + more[..|more| - 1];
      JoinedConcat(packets, ks, more[..|more| - 1]);
    }
  }

  lemma AudibleAppend<S>(out: seq<Emission<S>>, e: Emission<S>)
    ensures Audible(out + [e]) == Audible(out) + (if e.Sample? then [e.value] else [])
  {
    assert (out + [e])[..|out|] == out;
  }

  // ---------------------------------------------------------------------------------
  // The invariant
  // ---------------------------------------------------------------------------------

  /** Strictly increasing indices before hi of packets that have arrived. */
  ghost predicate Increasing<S>(played: seq<int>, lo: int, hi: int, packets: map<int, seq<S>>) {
    && (forall a :: 0 <= a < |played| ==> lo <= played[a] < hi && played[a] in packets)
    && (forall a, b :: 0 <= a < b < |played| ==> played[a] < played[b])
  }

  lemma IncreasingOneMore<S>(played: seq<int>, lo: int, hi: int, packets: map<int, seq<S>>)
    requires Increasing(played, lo, hi, packets) && lo <= hi && hi in packets
    ensures Increasing(played + [hi], lo, hi + 1, packets)
  {
  }

  ghost predicate PlayedInOrder<S>(run: Run<S>) {
    && Increasing(run.played, run.initial, run.readIndex, run.packets)
    && (run.play.phase == Locking ==> run.play.current == None)
    && run.initial <= run.readIndex
    && Audible(run.play.out) + Rest(run.play.current) == Joined(run.packets, run.played)
  }

  lemma ArrivalKeepsOrder<S>(run: Run<S>, i: int, packet: seq<S>)
    requires PlayedInOrder(run) && i >= run.readIndex
    ensures PlayedInOrder(Step(run, Arrive(i, packet)))
  {
    JoinedIgnoresOthers(run.packets, run.packets[i := packet], run.played);
  }

  lemma HeadMoves<S>(heard: seq<S>, rest: seq<S>)
    requires rest != []
    ensures heard + [rest[0]] + rest[1..] == heard + rest
  {
    assert [rest[0]] + rest[1..] == rest;
  }

  /** A step of the audio thread only moves samples from the packet in hand to the output,
      and only the locked step brings in a new packet. */
  lemma AudioStepMovesSamples<S>(p: Playout<S>)
    requires p.phase == Locking ==> p.current == None
    ensures var q := AudioStep(p);
            Audible(q.out) + Rest(q.current) == Audible(p.out) + Rest(p.current) +
              (if p.phase == Locking then Rest(Front(p.buffer)) else [])
  {
    var heard, rest := Audible(p.out), Rest(p.current);
    if p.phase == Locking {
      assert rest == [] && heard + rest == heard;
    } else {
      assert heard + rest + [] == heard + rest;
      if HasSample(p.current) {
        AudibleAppend(p.out, Sample(rest[0]));
        HeadMoves(heard, rest);
      } else {
        AudibleAppend<S>(p.out, Silence);
        assert rest == [] && heard + [] == heard;
      }
    }
  }

  /** The packet at the front of the buffer is the latest one that arrived under the read marker's
      index. */
  lemma FrontIsDue<S>(run: Run<S>)
    requires RunHoldsTheWindow(run)
    ensures Front(run.play.buffer) ==
            if run.readIndex in run.packets then Some(run.packets[run.readIndex]) else None
  {
    var b := run.play.buffer;
    assert Dist(b.read, b.read) == 0;
    assert MirrorsAt(b, run.readIndex, run.packets, b.read);
  }

  lemma JoinedOneMore<S>(packets: map<int, seq<S>>, ks: seq<int>, k: int)
    requires k in packets
    ensures Joined(packets, ks + [k]) == Joined(packets, ks) + packets[k]
  {
    assert (ks + [k])[..|ks + [k]| - 1] == ks;
  }

  lemma PopPlaysOneMore<S>(p: Playout<S>, packets: map<int, seq<S>>, played: seq<int>, k: int)
    requires p.phase == Locking && p.current == None
    requires k in packets && Front(p.buffer) == Some(packets[k])
    requires Audible(p.out) + Rest(p.current) == Joined(packets, played)
    ensures Audible(AudioStep(p).out) + Rest(AudioStep(p).current) == Joined(packets, played + [k])
  {
    AudioStepMovesSamples(p);
    JoinedOneMore(packets, played, k);
  }

  lemma PopKeepsOrder<S>(run: Run<S>)
    requires PlayedInOrder(run) && run.play.phase == Locking
    requires run.readIndex in run.packets && Front(run.play.buffer) == Some(run.packets[run.readIndex])
    ensures PlayedInOrder(Step(run, Audio))
  {
    var after := Step(run, Audio);
    assert after.packets == run.packets && after.play == AudioStep(run.play);
    PopPlaysOneMore(run.play, run.packets, run.played, run.readIndex);
    IncreasingOneMore(run.played, run.initial, run.readIndex, run.packets);
    assert after.played == run.played + [run.readIndex];
  }

  lemma OtherStepsKeepOrder<S>(run: Run<S>)
    requires PlayedInOrder(run)
    requires run.play.phase == Locking ==> Front(run.play.buffer) == None
    ensures PlayedInOrder(Step(run, Audio))
  {
    var heard := Audible(run.play.out) + Rest(run.play.current);
    AudioStepMovesSamples(run.play);
    assert heard + [] == heard;
    assert Step(run, Audio) == run.(play := AudioStep(run.play));
  }

  lemma AudioKeepsOrder<S>(run: Run<S>)
    requires PlayedInOrder(run) && RunHoldsTheWindow(run)
    ensures PlayedInOrder(Step(run, Audio))
  {
    FrontIsDue(run);
    if run.play.phase == Locking && Front(run.play.buffer).Some? {
      PopKeepsOrder(run);
    } else {
      OtherStepsKeepOrder(run);
    }
  }

  lemma {:induction false} OrderHolds<S>(r0: int, es: seq<Event<S>>)
    requires Follows(AheadOfReader, r0, es)
    ensures PlayedInOrder(Exec(r0, es)) && Exec(r0, es).initial == r0
  {
    if es != [] {
      var before, e := es[..|es| - 1], es[|es| - 1];
      OrderHolds(r0, before);
      WindowHolds(r0, before);
      match e
      case Arrive(i, packet) => ArrivalKeepsOrder(Exec(r0, before), i, packet);
      case FlushTo(_) =>
      case Audio => AudioKeepsOrder(Exec(r0, before));
    }
  }

  /** Every index the read marker has passed was either played or flushed over, never both. */
  ghost predicate Accounted<S>(run: Run<S>, skipped: set<int>) {
    && run.initial <= run.readIndex
    && (forall k :: k in run.played || k in skipped <==> run.initial <= k < run.readIndex)
    && (forall k :: k in run.played ==> k !in skipped)
  }

  function SkippedBy<S>(run: Run<S>, e: Event<S>): set<int> {
    if e.FlushTo? then Interval(run.readIndex, e.index) else {}
  }

  lemma StepAccounts<S>(rule: Rule, run: Run<S>, skipped: set<int>, e: Event<S>)
    requires Accounted(run, skipped) && Allowed(rule, run, e)
    ensures Accounted(Step(run, e), skipped + SkippedBy(run, e))
  {
    var after := Step(run, e);
    assert after.played == run.played || after.played == run.played + [run.readIndex];
  }

  lemma {:induction false} PlayedOrSkipped<S>(rule: Rule, r0: int, es: seq<Event<S>>)
    requires Follows(rule, r0, es)
    ensures Accounted(Exec(r0, es), Skipped(r0, es))
  {
    if es != [] {
      PlayedOrSkipped(rule, r0, es[..|es| - 1]);
      StepAccounts(rule, Exec(r0, es[..|es| - 1]), Skipped(r0, es[..|es| - 1]), es[|es| - 1]);
    }
  }

  // ---------------------------------------------------------------------------------
  // The theorems
  // ---------------------------------------------------------------------------------

  /** Over any run whose arrivals are in the reader's window, what has been heard plus what the
      packet in hand still holds is the packets of the played indices joined together; those
      indices only go up, and they are all the indices passed except the flushed ones. */
  lemma PlaybackIsInOrder<S>(r0: int, es: seq<Event<S>>, picks: Picks)
    requires Follows(AheadOfReader, r0, es)
    ensures var run, o := Exec(r0, es), OrderedExec(r0, es, picks);
            && Audible(o.out) + Rest(o.current) == Joined(run.packets, run.played)
            && (forall a, b :: 0 <= a < b < |run.played| ==> run.played[a] < run.played[b])
            && (forall k :: k in run.played ==> k in run.packets)
            && (forall k :: k in run.played <==> r0 <= k < run.readIndex && k !in Skipped(r0, es))
  {
    InTheWindowOrderedIsAMap(r0, es, picks);
    OrderHolds(r0, es);
    PlayedOrSkipped(AheadOfReader, r0, es);
    assert Accounted(Exec(r0, es), Skipped(r0, es));
  }

  /** The n indices from r0 on. */
  function IndicesFrom(r0: int, n: nat): (ks: seq<int>)
    ensures |ks| == n && forall t :: 0 <= t < n ==> ks[t] == r0 + t
  {
    seq(n, t => r0 + t)
  }

  lemma StepSkipsNothing<S>(run: Run<S>, e: Event<S>)
    requires run.played == IndicesFrom(run.initial, |run.played|) && !e.FlushTo?
    requires run.readIndex == run.initial + |run.played|
    ensures var after := Step(run, e);
            && after.played == IndicesFrom(run.initial, |after.played|)
            && after.readIndex == run.initial + |after.played|
  {
    var after := Step(run, e);
    assert after.played == run.played || after.played == run.played + [run.readIndex];
  }

  lemma {:induction false} WithoutFlushNothingIsSkipped<S>(r0: int, es: seq<Event<S>>)
    requires forall e :: e in es ==> !e.FlushTo?
    ensures Exec(r0, es).initial == r0
    ensures Exec(r0, es).readIndex == r0 + |Exec(r0, es).played|
    ensures Exec(r0, es).played == IndicesFrom(r0, |Exec(r0, es).played|)
  {
    if es != [] {
      assert es[|es| - 1] in es;
      WithoutFlushNothingIsSkipped(r0, es[..|es| - 1]);
      StepSkipsNothing(Exec(r0, es[..|es| - 1]), es[|es| - 1]);
    }
  }

  lemma PassedArePackets<S>(r0: int, es: seq<Event<S>>, k: int)
    requires Follows(AheadOfReader, r0, es)
    requires forall e :: e in es ==> !e.FlushTo?
    requires r0 <= k < Exec(r0, es).readIndex
    ensures k in Exec(r0, es).packets
  {
    OrderHolds(r0, es);
    WithoutFlushNothingIsSkipped(r0, es);
    assert Exec(r0, es).played[k - r0] == k;
  }

  lemma HeardIsConcatenation<S>(r0: int, es: seq<Event<S>>)
    requires Follows(AheadOfReader, r0, es)
    requires forall e :: e in es ==> !e.FlushTo?
    ensures var run := Exec(r0, es);
            && run.readIndex >= r0
            && Audible(run.play.out) + Rest(run.play.current) ==
               Joined(run.packets, IndicesFrom(r0, run.readIndex - r0))
  {
    OrderHolds(r0, es);
    WithoutFlushNothingIsSkipped(r0, es);
  }

  /** Without flushes: what has been heard is a prefix of packet(r0), packet(r0 + 1), ... joined
      in order, however often the numbers wrapped, and it stops inside the last of them. */
  lemma PlaybackIsConcatenation<S>(r0: int, es: seq<Event<S>>, picks: Picks)
    requires Follows(AheadOfReader, r0, es)
    requires forall e :: e in es ==> !e.FlushTo?
    ensures var run, o := Exec(r0, es), OrderedExec(r0, es, picks);
            && run.readIndex >= r0
            && (forall k :: r0 <= k < run.readIndex ==> k in run.packets)
            && Audible(o.out) <= Joined(run.packets, IndicesFrom(r0, run.readIndex - r0))
            && Audible(o.out) + Rest(o.current) == Joined(run.packets, IndicesFrom(r0, run.readIndex - r0))
  {
    InTheWindowOrderedIsAMap(r0, es, picks);
    HeardIsConcatenation(r0, es);
    forall k | r0 <= k < Exec(r0, es).readIndex
      ensures k in Exec(r0, es).packets
    {
      PassedArePackets(r0, es, k);
    }
  }

  /** Below index r both runs have the same packets. */
  ghost predicate SameBelow<S>(packets: map<int, seq<S>>, more: map<int, seq<S>>, r: int) {
    forall k :: k < r ==> (k in packets <==> k in more) && (k in packets ==> packets[k] == more[k])
  }

  lemma StepIsFurtherOn<S>(run: Run<S>, e: Event<S>) returns (later: seq<int>)
    requires Allowed(AheadOfReader, run, e)
    ensures Step(run, e).readIndex >= run.readIndex && Step(run, e).played == run.played + later
    ensures forall k :: k in later ==> k == run.readIndex
    ensures SameBelow(run.packets, Step(run, e).packets, run.readIndex)
  {
    later := if e == Audio && run.play.phase == Locking && Front(run.play.buffer).Some? then [run.readIndex] else [];
  }

  /** Going on from a point in a run: the indices played later are all at or after the read
      marker of that point, and packets already passed do not change any more. */
  lemma {:induction false} LaterIsFurtherOn<S>(r0: int, es: seq<Event<S>>, n: nat) returns (later: seq<int>)
    requires Follows(AheadOfReader, r0, es) && n <= |es|
    ensures Exec(r0, es).readIndex >= Exec(r0, es[..n]).readIndex
    ensures Exec(r0, es).played == Exec(r0, es[..n]).played + later
    ensures forall k :: k in later ==> k >= Exec(r0, es[..n]).readIndex
    ensures SameBelow(Exec(r0, es[..n]).packets, Exec(r0, es).packets, Exec(r0, es[..n]).readIndex)
  {
    if n == |es| {
      assert es[..n] == es;
      later := [];
    } else {
      var before := es[..|es| - 1];
      assert before[..n] == es[..n];
      later := LaterIsFurtherOn(r0, before, n);
      var more := StepIsFurtherOn(Exec(r0, before), es[|es| - 1]);
      later := later + more;
    }
  }

  lemma JoinedSplits<S>(packets: map<int, seq<S>>, more: map<int, seq<S>>, ks: seq<int>, later: seq<int>)
    requires forall k :: k in ks ==> (k in packets <==> k in more) && (k in packets ==> packets[k] == more[k])
    ensures Joined(more, ks + later) == Joined(packets, ks) + Joined(more, later)
  {
    JoinedConcat(more, ks, later);
    JoinedIgnoresOthers(packets, more, ks);
  }

  lemma HeardAfterFlush<S>(r0: int, es: seq<Event<S>>, n: nat) returns (later: seq<int>)
    requires Follows(AheadOfReader, r0, es) && n < |es| && es[n].FlushTo?
    ensures forall k :: k in later ==> k >= es[n].index
    ensures var at, now := Exec(r0, es[..n]), Exec(r0, es);
              Audible(now.play.out) + Rest(now.play.current)
              == Audible(at.play.out) + Rest(at.play.current) + Joined(now.packets, later)
  {
    var at, now := Exec(r0, es[..n]), Exec(r0, es);
    assert es[..n + 1][..n] == es[..n];
    later := LaterIsFurtherOn(r0, es, n + 1);
    FollowsPrefix(AheadOfReader, r0, es, n);
    FollowsPrefix(AheadOfReader, r0, es, n + 1);
    OrderHolds(r0, es[..n]);
    OrderHolds(r0, es);
    forall k | k in at.played
      ensures (k in at.packets <==> k in now.packets) && (k in at.packets ==> at.packets[k] == now.packets[k])
    {
      assert k < at.readIndex <= Exec(r0, es[..n + 1]).readIndex;
    }
    JoinedSplits(at.packets, now.packets, at.played, later);
  }

  /** After a flush the source plays out the packet it holds and then only packets at or after
      the target. */
  lemma AfterFlushOnlyTheTargetOn<S>(r0: int, es: seq<Event<S>>, n: nat, picks: Picks) returns (later: seq<int>)
    requires Follows(AheadOfReader, r0, es) && n < |es| && es[n].FlushTo?
    ensures forall k :: k in later ==> k >= es[n].index
    ensures var at, now := OrderedExec(r0, es[..n], picks), OrderedExec(r0, es, picks);
              Audible(now.out) + Rest(now.current)
              == Audible(at.out) + Rest(at.current) + Joined(Exec(r0, es).packets, later)
  {
    later := HeardAfterFlush(r0, es, n);
    FollowsPrefix(AheadOfReader, r0, es, n);
    InTheWindowOrderedIsAMap(r0, es[..n], picks);
    InTheWindowOrderedIsAMap(r0, es, picks);
  }

  /** A packet comes behind the read marker, and the marker goes once round. */
  function LateRun<S>(v: S): seq<Event<S>> {
    [FlushTo(1), Arrive(0, [v]), FlushTo(65535), FlushTo(65536)]
  }

  lemma LatePacketStays<S>(v: S)
    ensures var run := Exec(0, LateRun(v));
            && Follows(AnyArrival, 0, LateRun(v)) && !Follows(AheadOfReader, 0, LateRun(v))
            && run.play == Playout(Buffer(map[0 := [v]], 0, 0), None, Idle, [])
            && run.readIndex == 65536 && run.played == [] && run.packets == map[0 := [v]]
  {
    var e1: seq<Event<S>> := [FlushTo(1)];
    var e2 := e1 + [Arrive(0, [v])];
    var e3 := e2 + [FlushTo(65535)];
    assert e1 == [] + [FlushTo(1)] && LateRun(v) == e3 + [FlushTo(65536)];
    ExecOneMore<S>(0, [], FlushTo(1));
    ExecOneMore(0, e1, Arrive(0, [v]));
    ExecOneMore(0, e2, FlushTo(65535));
    ExecOneMore(0, e3, FlushTo(65536));
    assert Exec(0, e1).play.buffer == Buffer(map[], 1, 0);
    assert Exec(0, e2).play.buffer == Buffer(map[0 := [v]], 1, 0);
    assert Exec(0, e3).play.buffer.data == map[0 := [v]];
    assert Wrap(65536) == 0 && !OnWalk(65535, 0, 0);
    assert Exec(0, LateRun(v)).play.buffer.data == map[0 := [v]];
  }

  /** The window is needed: a packet that comes behind the read marker stays where it is, and is
      played one lap later in the place of a packet that never came. */
  lemma LatePacketIsPlayedALapLater<S>(v: S)
    ensures var run := Exec(0, LateRun(v) + [Audio] + [Audio] + [Audio]);
            && run.play.out == [Sample(v)]
            && run.played == [65536] && 65536 !in run.packets
  {
    LatePacketStays(v);
    ExecOneMore(0, LateRun(v), Audio);
    ExecOneMore(0, LateRun(v) + [Audio], Audio);
    ExecOneMore(0, LateRun(v) + [Audio] + [Audio], Audio);
  }

  // ---------------------------------------------------------------------------------
  // Silence
  // ---------------------------------------------------------------------------------

  lemma {:induction false} PlayerLeavesTheAudioThreadAlone<S>(run: Run<S>, r0: int, es: seq<Event<S>>, n: nat)
    requires n <= |es| && (forall k :: n <= k < |es| ==> es[k] != Audio)
    ensures Exec(r0, es).play.(buffer := run.play.buffer) == Exec(r0, es[..n]).play.(buffer := run.play.buffer)
  {
    if n == |es| {
      assert es[..n] == es;
    } else {
      assert es[..|es| - 1][..n] == es[..n];
      PlayerLeavesTheAudioThreadAlone(run, r0, es[..|es| - 1], n);
    }
  }

  /** The two steps after taking the lock, for whatever buffer is there at the second one. */
  lemma LockedStepsEmit<S>(p: Playout<S>, q: Playout<S>)
    requires p.phase == Locking && q.(buffer := p.buffer) == AudioStep(p).(buffer := p.buffer)
    ensures AudioStep(q).out ==
            p.out + [if HasSample(Front(p.buffer)) then Sample(Front(p.buffer).value[0]) else Silence]
  {
    assert q.phase == Draining && q.current == Front(p.buffer) && q.out == p.out;
  }

  lemma EmittedAtTheLock<S>(r0: int, es: seq<Event<S>>, n: nat)
    requires n + 1 < |es| && es[n] == Audio && es[|es| - 1] == Audio
    requires forall k :: n < k < |es| - 1 ==> es[k] != Audio
    requires Exec(r0, es[..n]).play.phase == Locking
    ensures var front := Front(Exec(r0, es[..n]).play.buffer);
            Exec(r0, es).play.out == Exec(r0, es[..n]).play.out +
              [if HasSample(front) then Sample(front.value[0]) else Silence]
  {
    var at := Exec(r0, es[..n]);
    var mid := es[..|es| - 1];
    assert Exec(r0, es[..n + 1]).play == AudioStep(at.play) by {
      assert es[..n + 1][..n] == es[..n];
    }
    assert mid[..n + 1] == es[..n + 1];
    PlayerLeavesTheAudioThreadAlone(at, r0, mid, n + 1);
    LockedStepsEmit(at.play, Exec(r0, mid).play);
  }

  /** The two steps that follow taking the lock, with any arrivals and flushes in between,
      emit the first sample of the packet at the read marker if there is one to emit, and
      silence exactly when that packet has not arrived or is empty. */
  lemma SilenceOnlyFillsHoles<S>(r0: int, es: seq<Event<S>>, n: nat, picks: Picks)
    requires Follows(AheadOfReader, r0, es)
    requires n + 1 < |es| && es[n] == Audio && es[|es| - 1] == Audio
    requires forall k :: n < k < |es| - 1 ==> es[k] != Audio
    requires OrderedExec(r0, es[..n], picks).phase == Locking
    ensures var at := Exec(r0, es[..n]);
            var due := at.readIndex;
            OrderedExec(r0, es, picks).out == OrderedExec(r0, es[..n], picks).out +
              [if due in at.packets && at.packets[due] != [] then Sample(at.packets[due][0]) else Silence]
  {
    FollowsPrefix(AheadOfReader, r0, es, n);
    InTheWindowOrderedIsAMap(r0, es[..n], picks);
    InTheWindowOrderedIsAMap(r0, es, picks);
    EmittedAtTheLock(r0, es, n);
    WindowHolds(r0, es[..n]);
    FrontIsDue(Exec(r0, es[..n]));
  }
}
