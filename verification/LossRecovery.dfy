/** What is reported missing over whole runs, and what a stalled reader can conclude from it. What the
    reader finds is said of the program over the ordered map, whichever comparisons that map makes. */
module LossRecovery {
  import opened SeqNumbers
  import opened Basics
  import opened FrameBuffers
  import opened PlayoutRuns
  import opened OrderedMaps
  import opened ControlChannel

  // ---------------------------------------------------------------------------------
  // One arrival
  // ---------------------------------------------------------------------------------

  /** An arrival within half a window of the previous one reports exactly the indices strictly
      between the two, and nothing when it comes late. */
  lemma GapIsWhatLiesBetween<S>(b: Buffer<S>, w: int, i: int)
    requires b.write == Wrap(w) && w - 32766 <= i <= w + 32768
    ensures Unwound(Gap(b, Wrap(i)), i) == Interval(w + 1, i)
  {
    WrapNext(w);
    SeqIterIsIndexRange(w + 1, i);
  }

  /** Exactly when the report is right, for any arrival at all: it is at most 2^15 ahead of the previous
      one, and if it is not ahead, the range is empty. */
  lemma GapIsExactExactlyWhen<S>(b: Buffer<S>, w: int, i: int)
    requires b.write == Wrap(w)
    ensures Unwound(Gap(b, Wrap(i)), i) == Interval(w + 1, i) <==>
            i <= w + 32768 && (i <= w ==> Gap(b, Wrap(i)).IsEmpty())
  {
    var gap := Gap(b, Wrap(i));
    WrapNext(w);
    SeqIterCountsUp(gap.start, gap.end);
    if w < i <= w + 32768 {
      GapIsWhatLiesBetween(b, w, i);
    } else if i <= w {
      assert gap.IsEmpty() || i - 1 in Unwound(gap, i);
    } else {
      assert w + 1 in Interval(w + 1, i) && w + 1 !in Unwound(gap, i);
    }
  }

  /** Less than a lap behind, the range is empty up to 2^15 - 2 behind and at 2^15 - 1, where the order
      of its ends is not defined; farther behind it is not. */
  lemma LateGapIsEmptyExactlyWhen<S>(b: Buffer<S>, w: int, i: int)
    requires b.write == Wrap(w) && w - 65535 < i <= w
    ensures Gap(b, Wrap(i)).IsEmpty() <==> w - 32767 <= i
  {
    WrapNext(w);
    WrapDist(i, w + 1);
  }

  /** On the wire, the request for a gap asks for exactly the numbers of the missing indices. */
  lemma RequestAsksForTheMissing<S>(b: Buffer<S>, w: int, i: int)
    requires b.write == Wrap(w) && w + 1 < i <= w + 32768
    ensures !Gap(b, Wrap(i)).IsEmpty()
    ensures WireCount(Gap(b, Wrap(i))) == i - w - 1
    ensures Requested(ResendRequest(Gap(b, Wrap(i)))) == CountUp(w + 1, i - w - 1)
  {
    WrapNext(w);
    LessIsIndexOrder(w + 1, i);
    SeqIterIsIndexRange(w + 1, i);
    RequestNamesTheRange(Gap(b, Wrap(i)));
  }

  // ---------------------------------------------------------------------------------
  // Coverage
  // ---------------------------------------------------------------------------------

  ghost predicate Covered<S>(run: Run<S>) {
    && run.initial <= run.top
    && run.writeIndex <= run.top
    && (forall k :: run.initial < k <= run.top ==> k in run.packets || k in run.reported)
  }

  lemma ArrivalCovers<S>(run: Run<S>, i: int, packet: seq<S>)
    requires Covered(run) && MarkersAreImages(run)
    requires run.writeIndex - 32766 <= i <= run.writeIndex + 32768
    ensures Covered(Step(run, Arrive(i, packet)))
  {
    GapIsWhatLiesBetween(run.play.buffer, run.writeIndex, i);
    var after := Step(run, Arrive(i, packet));
    forall k | run.initial < k <= after.top
      ensures k in after.packets || k in after.reported
    {
      assert k > run.top && k != i ==> k in Interval(run.writeIndex + 1, i);
    }
  }

  lemma {:induction false} CoverageHolds<S>(rule: Rule, r0: int, es: seq<Event<S>>)
    requires rule == NearWriter || rule == NearBoth
    requires Follows(rule, r0, es)
    ensures Covered(Exec(r0, es))
  {
    if es != [] {
      var before, e := es[..|es| - 1], es[|es| - 1];
      CoverageHolds(rule, r0, before);
      MarkersStayImages(r0, before);
      if e.Arrive? {
        ArrivalCovers(Exec(r0, before), e.index, e.packet);
      }
    }
  }

  /** However the arrivals are ordered, as long as each is within half a window of the one before:
      every index after the first up to the highest that ever arrived has arrived itself or has
      been reported, although late arrivals move the write marker back. */
  lemma EveryIndexArrivedOrReported<S>(r0: int, es: seq<Event<S>>, k: int)
    requires Follows(NearWriter, r0, es) && r0 < k <= Exec(r0, es).top
    ensures k in Exec(r0, es).packets || k in Exec(r0, es).reported
  {
    CoverageHolds(NearWriter, r0, es);
    MarkersStayImages(r0, es);
  }

  lemma UnwoundIsRequested<S>(b: Buffer<S>, i: int, k: int)
    requires k in Unwound(Gap(b, Wrap(i)), i)
    ensures !Gap(b, Wrap(i)).IsEmpty()
    ensures Wrap(k) in Requested(ResendRequest(Gap(b, Wrap(i))))
  {
    var gap := Gap(b, Wrap(i));
    SeqIterCountsUp(gap.start, gap.end);
    RequestNamesTheRange(gap);
    var count := |SeqIter(gap.start, gap.end)|;
    var t := k - (i - count);
    assert CountUp(gap.start, count)[t] == Wrap(gap.start + t);
    CountingBack(gap.start, i, t);
  }

  /** Nothing else is asked for: each number of a request is that of a reported index. */
  lemma RequestedIsUnwound<S>(b: Buffer<S>, i: int, s: Seq) returns (k: int)
    requires s in Requested(ResendRequest(Gap(b, Wrap(i))))
    ensures k in Unwound(Gap(b, Wrap(i)), i) && Wrap(k) == s
    ensures !Gap(b, Wrap(i)).IsEmpty()
  {
    var gap := Gap(b, Wrap(i));
    SeqIterCountsUp(gap.start, gap.end);
    RequestNamesTheRange(gap);
    var count := |SeqIter(gap.start, gap.end)|;
    var t :| 0 <= t < count && CountUp(gap.start, count)[t] == s;
    k := i - count + t;
    CountingBack(gap.start, i, t);
  }

  /** A reported index was asked for on the wire: some arrival returned a non-empty range whose
      request names it. */
  lemma {:induction false} ReportedWasRequested<S>(r0: int, es: seq<Event<S>>, k: int) returns (n: nat)
    requires k in Exec(r0, es).reported
    ensures n < |es| && es[n].Arrive?
    ensures var gap := Gap(Exec(r0, es[..n]).play.buffer, Wrap(es[n].index));
            !gap.IsEmpty() && Wrap(k) in Requested(ResendRequest(gap))
  {
    var before, e := es[..|es| - 1], es[|es| - 1];
    if k in Exec(r0, before).reported {
      n := ReportedWasRequested(r0, before, k);
      assert before[..n] == es[..n];
    } else {
      n := |es| - 1;
      UnwoundIsRequested(Exec(r0, before).play.buffer, e.index, k);
    }
  }

  // ---------------------------------------------------------------------------------
  // The first packet
  // ---------------------------------------------------------------------------------

  ghost predicate NothingBefore<S>(first: int, es: seq<Event<S>>) {
    forall n :: 0 <= n < |es| && es[n].Arrive? ==> first <= es[n].index
  }

  lemma ReportsLieBeyond<S>(run: Run<S>, e: Event<S>, first: int)
    requires MarkersAreImages(run) && Allowed(NearWriter, run, e)
    requires run.writeIndex >= first && forall k :: k in run.reported ==> first < k
    requires e.Arrive? ==> first <= e.index
    ensures Step(run, e).writeIndex >= first && forall k :: k in Step(run, e).reported ==> first < k
  {
    if e.Arrive? {
      GapIsWhatLiesBetween(run.play.buffer, run.writeIndex, e.index);
    }
  }

  /** As long as nothing before the first packet arrives, the first packet is never reported: what is
      reported lies beyond it. */
  lemma {:induction false} FirstPacketIsNeverReported<S>(r0: int, es: seq<Event<S>>)
    requires Follows(NearWriter, r0, es) && NothingBefore(r0, es)
    ensures Exec(r0, es).writeIndex >= r0
    ensures forall k :: k in Exec(r0, es).reported ==> r0 < k
  {
    if es != [] {
      FirstPacketIsNeverReported(r0, es[..|es| - 1]);
      MarkersStayImages(r0, es[..|es| - 1]);
      ReportsLieBeyond(Exec(r0, es[..|es| - 1]), es[|es| - 1], r0);
    }
  }

  /** So a reader can wait for the first packet without its having been asked for. */
  lemma FirstPacketStalls<S>(packet: seq<S>)
    ensures var es := [Arrive(1, packet)];
            && Follows(NearBoth, 0, es) && NothingBefore(0, es)
            && Front(Exec(0, es).play.buffer) == None
            && Exec(0, es).readIndex == 0 && Exec(0, es).reported == {}
  {
    ExecOne(0, Arrive(1, packet));
  }

  // ---------------------------------------------------------------------------------
  // What stays in the buffer
  // ---------------------------------------------------------------------------------

  /** Under the number of every packet that arrived at or after the read marker something is stored,
      although a packet of an earlier lap may have taken its place. */
  ghost predicate KeepsTheWindow<S>(b: Buffer<S>, r: int, packets: map<int, seq<S>>) {
    && b.read == Wrap(r)
    && (forall k :: k in packets ==> k < r + 32768)
    && (forall k :: k in packets && r <= k ==> Wrap(k) in b.data)
  }

  /** And it is the packet itself. */
  ghost predicate KeepsThePackets<S>(b: Buffer<S>, r: int, packets: map<int, seq<S>>) {
    forall k :: k in packets && r <= k && Wrap(k) in b.data ==> b.data[Wrap(k)] == packets[k]
  }

  lemma WalkSpares<S>(b: Buffer<S>, r: int, k: int, n: nat)
    requires b.read == Wrap(r) && r + n <= k < r + 65536 && Wrap(k) in b.data
    ensures var after := Flushed(b, Wrap(r + n)).data;
            Wrap(k) in after && after[Wrap(k)] == b.data[Wrap(k)]
  {
    WrapDist(r, k);
    WrapDist(r, r + n);
  }

  lemma WalkKeeps<S>(b: Buffer<S>, r: int, packets: map<int, seq<S>>, n: nat)
    requires KeepsTheWindow(b, r, packets) && n < 65536
    ensures KeepsTheWindow(Flushed(b, Wrap(r + n)), r + n, packets)
    ensures KeepsThePackets(b, r, packets) ==> KeepsThePackets(Flushed(b, Wrap(r + n)), r + n, packets)
  {
    forall k | k in packets && r + n <= k
      ensures var after := Flushed(b, Wrap(r + n)).data;
              Wrap(k) in after && after[Wrap(k)] == b.data[Wrap(k)]
    {
      WalkSpares(b, r, k, n);
    }
  }

  lemma LessThanALapApart(i: int, k: int)
    requires -65536 < k - i < 65536 && i != k
    ensures Wrap(i) != Wrap(k)
  {
    if i <= k {
      WrapDist(i, k);
    } else {
      WrapDist(k, i);
    }
  }

  lemma ArrivalKeeps<S>(b: Buffer<S>, r: int, packets: map<int, seq<S>>, i: int, packet: seq<S>)
    requires KeepsTheWindow(b, r, packets) && i < r + 32768
    ensures KeepsTheWindow(Added(b, Wrap(i), packet), r, packets[i := packet])
    ensures KeepsThePackets(b, r, packets) && r - 32768 < i ==>
              KeepsThePackets(Added(b, Wrap(i), packet), r, packets[i := packet])
  {
    forall k | k in packets && r <= k && r - 32768 < i && k != i
      ensures Wrap(k) != Wrap(i)
    {
      LessThanALapApart(i, k);
    }
  }

  /** Exactly when an arrival leaves every packet that is due what it was: the index at or after the
      reader that has its number is its own, or has not arrived, or carried the same samples. */
  lemma ArrivalKeepsPacketsExactlyWhen<S>(
      b: Buffer<S>, r: int, packets: map<int, seq<S>>, i: int, packet: seq<S>)
    requires KeepsTheWindow(b, r, packets) && KeepsThePackets(b, r, packets) && i < r + 32768
    ensures var due := r + Dist(b.read, Wrap(i));
            KeepsThePackets(Added(b, Wrap(i), packet), r, packets[i := packet]) <==>
            (due != i && due in packets ==> packets[due] == packet)
  {
    var due := r + Dist(b.read, Wrap(i));
    var after := packets[i := packet];
    CountingOn(r, Wrap(i));
    assert due in packets ==> due in after;
    forall k | k in after && r <= k && Wrap(k) == Wrap(i)
      ensures k == due
    {
      WrapDist(r, k);
    }
  }

  ghost predicate RunKeepsTheWindow<S>(run: Run<S>) {
    KeepsTheWindow(run.play.buffer, run.readIndex, run.packets)
  }

  ghost predicate RunKeepsThePackets<S>(run: Run<S>) {
    KeepsThePackets(run.play.buffer, run.readIndex, run.packets)
  }

  /** A step that is not an arrival moves the read marker on by n, as a walk does. */
  lemma MovingOnIsAWalk<S>(run: Run<S>, e: Event<S>) returns (n: nat)
    requires run.play.buffer.read == Wrap(run.readIndex) && Allowed(AnyArrival, run, e) && !e.Arrive?
    ensures n < 65536
    ensures var after := Step(run, e);
            && after.readIndex == run.readIndex + n && after.packets == run.packets
            && after.play.buffer == Flushed(run.play.buffer, Wrap(run.readIndex + n))
  {
    var b := run.play.buffer;
    match e
    case FlushTo(j) => n := j - run.readIndex;
    case Audio =>
      if run.play.phase == Locking && Front(b).Some? {
        n := 1;
        FlushByOne(b);
        WrapNext(run.readIndex);
      } else {
        n := 0;
        assert Flushed(b, b.read).data == b.data;
      }
  }

  lemma StepKeeps<S>(run: Run<S>, e: Event<S>)
    requires RunKeepsTheWindow(run) && Allowed(AnyArrival, run, e)
    requires e.Arrive? ==> e.index < run.readIndex + 32768
    ensures RunKeepsTheWindow(Step(run, e))
    ensures RunKeepsThePackets(run) && Allowed(AroundReader, run, e) ==> RunKeepsThePackets(Step(run, e))
  {
    if e.Arrive? {
      ArrivalKeeps(run.play.buffer, run.readIndex, run.packets, e.index, e.packet);
    } else {
      var n := MovingOnIsAWalk(run, e);
      WalkKeeps(run.play.buffer, run.readIndex, run.packets, n);
    }
  }

  lemma {:induction false} MapKeepsWindow<S>(rule: Rule, r0: int, es: seq<Event<S>>)
    requires rule == NearBoth || rule == AroundReader
    requires Follows(rule, r0, es)
    ensures RunKeepsTheWindow(Exec(r0, es))
    ensures rule == AroundReader ==> RunKeepsThePackets(Exec(r0, es))
  {
    if es != [] {
      MapKeepsWindow(rule, r0, es[..|es| - 1]);
      StepKeeps(Exec(r0, es[..|es| - 1]), es[|es| - 1]);
    }
  }

  lemma FoundInTable<S>(r0: int, es: seq<Event<S>>, picks: Picks, s: Seq, n: nat)
    requires Follows(OneHalfCircle, r0, es) && s in Exec(r0, es).play.buffer.data
    ensures var table := OrderedExec(r0, es, picks).buffer.table;
            var probe := Lookup(table, s, n, picks);
            probe.Found? && table[probe.at].value == Exec(r0, es).play.buffer.data[s]
  {
    OrderedMapIsAMap(r0, es, picks);
    LookupIsExact(OrderedExec(r0, es, picks).buffer.table, Exec(r0, es).play.buffer.data, s, n, picks);
  }

  /** In every run whose arrivals are less than half a window ahead of the reader, and each in one half
      circle with what is stored, a search for a packet that arrived at or after the read marker finds
      a packet, however late packets behind the marker come in. */
  lemma KeepingHolds<S>(r0: int, es: seq<Event<S>>, picks: Picks, k: int, n: nat)
    requires Follows(NearBoth, r0, es) && Follows(OneHalfCircle, r0, es)
    requires k in Exec(r0, es).packets && k >= Exec(r0, es).readIndex
    ensures Lookup(OrderedExec(r0, es, picks).buffer.table, Wrap(k), n, picks).Found?
  {
    MapKeepsWindow(NearBoth, r0, es);
    FoundInTable(r0, es, picks, Wrap(k), n);
  }

  /** When arrivals are less than half a window behind the reader too, it finds that very packet. */
  lemma LatestPacketIsFound<S>(r0: int, es: seq<Event<S>>, picks: Picks, k: int, n: nat)
    requires Follows(AroundReader, r0, es) && Follows(OneHalfCircle, r0, es)
    requires k in Exec(r0, es).packets && k >= Exec(r0, es).readIndex
    ensures var table := OrderedExec(r0, es, picks).buffer.table;
            var probe := Lookup(table, Wrap(k), n, picks);
            probe.Found? && table[probe.at].value == Exec(r0, es).packets[k]
  {
    MapKeepsWindow(AroundReader, r0, es);
    FoundInTable(r0, es, picks, Wrap(k), n);
  }

  // ---------------------------------------------------------------------------------
  // Stalls
  // ---------------------------------------------------------------------------------

  lemma StepMovesOn<S>(rule: Rule, run: Run<S>, e: Event<S>)
    requires Allowed(rule, run, e)
    ensures Step(run, e).readIndex >= run.readIndex
  {
  }

  lemma {:induction false} ReaderNeverGoesBack<S>(rule: Rule, r0: int, es: seq<Event<S>>)
    requires Follows(rule, r0, es)
    ensures Exec(r0, es).readIndex >= r0
  {
    if es != [] {
      ReaderNeverGoesBack(rule, r0, es[..|es| - 1]);
      StepMovesOn(rule, Exec(r0, es[..|es| - 1]), es[|es| - 1]);
    }
  }

  /** A reader that finds nothing waits for a packet that has not arrived. */
  lemma StallMeansMissing<S>(r0: int, es: seq<Event<S>>, picks: Picks)
    requires Follows(NearBoth, r0, es) && Follows(OneHalfCircle, r0, es)
    requires OrderedPop(OrderedExec(r0, es, picks).buffer, picks).1 == None
    ensures Exec(r0, es).readIndex !in Exec(r0, es).packets
  {
    MapKeepsWindow(NearBoth, r0, es);
    OrderedMapIsAMap(r0, es, picks);
    PopAgrees(OrderedExec(r0, es, picks).buffer, Exec(r0, es).play.buffer, picks);
  }

  lemma MissingIsReported<S>(r0: int, es: seq<Event<S>>)
    requires Follows(NearBoth, r0, es)
    requires Exec(r0, es).readIndex !in Exec(r0, es).packets
    requires Exec(r0, es).readIndex <= Exec(r0, es).top && Exec(r0, es).readIndex != r0
    ensures Exec(r0, es).readIndex in Exec(r0, es).reported
  {
    CoverageHolds(NearBoth, r0, es);
    MarkersStayImages(r0, es);
    ReaderNeverGoesBack(NearBoth, r0, es);
  }

  /** If the reader finds nothing although something at or beyond its index has arrived, then it waits
      for a packet that has not arrived: the very first one, or one that was asked for. */
  lemma StallIsExplained<S>(r0: int, es: seq<Event<S>>, picks: Picks) returns (n: nat)
    requires Follows(NearBoth, r0, es) && Follows(OneHalfCircle, r0, es)
    requires OrderedPop(OrderedExec(r0, es, picks).buffer, picks).1 == None
    requires Exec(r0, es).readIndex <= Exec(r0, es).top
    ensures Exec(r0, es).readIndex !in Exec(r0, es).packets
    ensures var run := Exec(r0, es);
            run.readIndex != r0 ==>
              && run.readIndex in run.reported
              && n < |es| && es[n].Arrive?
              && (var gap := Gap(Exec(r0, es[..n]).play.buffer, Wrap(es[n].index));
                  !gap.IsEmpty() && Wrap(run.readIndex) in Requested(ResendRequest(gap)))
  {
    n := 0;
    StallMeansMissing(r0, es, picks);
    if Exec(r0, es).readIndex != r0 {
      MissingIsReported(r0, es);
      n := ReportedWasRequested(r0, es, Exec(r0, es).readIndex);
    }
  }

  lemma {:induction false} BothWindowsAreNearBoth<S>(r0: int, es: seq<Event<S>>)
    requires Follows(NearWriter, r0, es) && Follows(AheadOfReader, r0, es)
    ensures Follows(NearBoth, r0, es)
  {
    if es != [] {
      BothWindowsAreNearBoth(r0, es[..|es| - 1]);
    }
  }

  /** So it is in particular in every run within the writer's and the reader's window. */
  lemma StallInTheWindowsIsExplained<S>(r0: int, es: seq<Event<S>>, picks: Picks) returns (n: nat)
    requires Follows(NearWriter, r0, es) && Follows(AheadOfReader, r0, es)
    requires OrderedPop(OrderedExec(r0, es, picks).buffer, picks).1 == None
    requires Exec(r0, es).readIndex != r0 && Exec(r0, es).readIndex <= Exec(r0, es).top
    ensures n < |es| && es[n].Arrive?
    ensures var gap := Gap(Exec(r0, es[..n]).play.buffer, Wrap(es[n].index));
            !gap.IsEmpty() && Wrap(Exec(r0, es).readIndex) in Requested(ResendRequest(gap))
  {
    BothWindowsAreNearBoth(r0, es);
    WindowIsOneHalfCircle(r0, es);
    n := StallIsExplained(r0, es, picks);
  }

  // ---------------------------------------------------------------------------------
  // Complete recovery
  // ---------------------------------------------------------------------------------

  lemma HeldUnderItsNumber<S>(run: Run<S>, k: int)
    requires RunHoldsTheWindow(run) && k in run.packets && k >= run.readIndex
    ensures Wrap(k) in run.play.buffer.data && run.play.buffer.data[Wrap(k)] == run.packets[k]
  {
    WrapDist(run.readIndex, k);
    assert MirrorsAt(run.play.buffer, run.readIndex, run.packets, Wrap(k));
  }

  lemma AnsweredMeansArrived<S>(r0: int, es: seq<Event<S>>, k: int)
    requires Follows(NearWriter, r0, es) && r0 <= k <= Exec(r0, es).top
    requires r0 in Exec(r0, es).packets && forall i :: i in Exec(r0, es).reported ==> i in Exec(r0, es).packets
    ensures k in Exec(r0, es).packets
  {
    if k > r0 {
      EveryIndexArrivedOrReported(r0, es, k);
    }
  }

  lemma HeldIsPopped<S>(r0: int, es: seq<Event<S>>, picks: Picks)
    requires Follows(AheadOfReader, r0, es) && Exec(r0, es).readIndex in Exec(r0, es).packets
    ensures OrderedPop(OrderedExec(r0, es, picks).buffer, picks).1
         == Some(Exec(r0, es).packets[Exec(r0, es).readIndex])
  {
    WindowHolds(r0, es);
    HeldUnderItsNumber(Exec(r0, es), Exec(r0, es).readIndex);
    InTheWindowOrderedIsAMap(r0, es, picks);
    PopAgrees(OrderedExec(r0, es, picks).buffer, Exec(r0, es).play.buffer, picks);
  }

  /** Loss recovery is complete: once the first packet and every reported one have arrived, all
      packets from the read marker up to the highest that arrived are in the buffer, and the reader
      gets the one it is at. */
  lemma AnsweredRequestsFillTheBuffer<S>(r0: int, es: seq<Event<S>>, picks: Picks, k: int)
    requires Follows(NearWriter, r0, es) && Follows(AheadOfReader, r0, es)
    requires r0 in Exec(r0, es).packets && forall i :: i in Exec(r0, es).reported ==> i in Exec(r0, es).packets
    requires Exec(r0, es).readIndex <= k <= Exec(r0, es).top
    ensures var run := Exec(r0, es);
            && k in run.packets
            && Wrap(k) in run.play.buffer.data && run.play.buffer.data[Wrap(k)] == run.packets[k]
            && run.readIndex in run.packets
            && OrderedPop(OrderedExec(r0, es, picks).buffer, picks).1 == Some(run.packets[run.readIndex])
  {
    ReaderNeverGoesBack(AheadOfReader, r0, es);
    AnsweredMeansArrived(r0, es, k);
    AnsweredMeansArrived(r0, es, Exec(r0, es).readIndex);
    assert RunHoldsTheWindow(Exec(r0, es)) by {
      WindowHolds(r0, es);
    }
    HeldUnderItsNumber(Exec(r0, es), k);
    HeldIsPopped(r0, es, picks);
  }

  // ---------------------------------------------------------------------------------
  // Runs that need the conditions
  // ---------------------------------------------------------------------------------

  /** A packet comes in late, just behind the reader; the reader is sent half a lap on; the packet due
      there arrives, and then one close to half a window ahead of it. */
  function StallingRun<S>(late: seq<S>, due: seq<S>, ahead: seq<S>): (es: seq<Event<S>>) {
    LateStart(late) + [Arrive(32700, due)] + [Arrive(32769, ahead)]
  }

  function LateStart<S>(late: seq<S>): seq<Event<S>> {
    [FlushTo(1)] + [Arrive(0, late)] + [FlushTo(32700)]
  }

  /** The run after the late packet and the second flush, after the arrival of the due packet, and after
      the last arrival. */
  function AfterLate<S>(late: seq<S>): Run<S> {
    Run(Playout(Buffer(map[0 := late], 32700, 0), None, Idle, []), 0, 32700, 0, 0, map[0 := late], {}, [])
  }

  function AfterDue<S>(late: seq<S>, due: seq<S>): Run<S> {
    Step(AfterLate(late), Arrive(32700, due))
  }

  function AfterAhead<S>(late: seq<S>, due: seq<S>, ahead: seq<S>): Run<S> {
    Step(AfterDue(late, due), Arrive(32769, ahead))
  }

  lemma LateSteps<S>(late: seq<S>)
    ensures var flushed := Step(Start<S>(0), FlushTo(1));
            var arrived := Step(flushed, Arrive(0, late));
            && Allowed(NearBoth, flushed, Arrive(0, late)) && Allowed(OneHalfCircle, flushed, Arrive(0, late))
            && Step(arrived, FlushTo(32700)) == AfterLate(late)
  {
    var flushed := Step(Start<S>(0), FlushTo(1));
    assert flushed.play.buffer == Buffer(map[], 1, 0);
    assert WithinHalf(0, flushed.play.buffer.data.Keys + {0});
    GapIsWhatLiesBetween(flushed.play.buffer, 0, 0);
    var arrived := Step(flushed, Arrive(0, late));
    assert arrived.play.buffer.data == map[0 := late];
    assert Flushed(arrived.play.buffer, 32700).data == map[0 := late];
  }

  lemma LateStarts<S>(late: seq<S>)
    ensures Follows(NearBoth, 0, LateStart(late)) && Follows(OneHalfCircle, 0, LateStart(late))
    ensures Exec(0, LateStart(late)) == AfterLate(late)
  {
    LateSteps(late);
    ExecOne<S>(0, FlushTo(1));
    ExecOneMore(0, [FlushTo(1)], Arrive(0, late));
    ExecOneMore(0, [FlushTo(1)] + [Arrive(0, late)], FlushTo(32700));
  }

  lemma FirstTwoDiffer<V>(t: Table<V>)
    requires Sorted(t) && |t| > 1
    ensures t[0].key != t[1].key
  {
    assert Less(t[0].key, t[1].key);
  }

  lemma SoleEntry<V>(t: Table<V>, k: Seq, v: V)
    requires Sorted(t) && Represents(t, map[k := v])
    ensures t == [Entry(k, v)]
  {
    if |t| > 1 {
      FirstTwoDiffer(t);
    }
    assert HasKey(t, k);
  }

  lemma LateTable<S>(late: seq<S>)
    ensures var o := OrderedExec(0, LateStart(late), FromTheLeft()).buffer;
            o.table == [Entry(0, late)] && o.read == 32700
  {
    LateStarts(late);
    OrderedMapIsAMap(0, LateStart(late), FromTheLeft());
    SoleEntry(OrderedExec(0, LateStart(late), FromTheLeft()).buffer.table, 0, late);
  }

  lemma TooFarSpread(keys: set<Seq>)
    requires 0 in keys && 32700 in keys && 32769 in keys
    ensures !InHalfCircle(keys)
  {
  }

  lemma DueAndAhead<S>(late: seq<S>, due: seq<S>, ahead: seq<S>)
    ensures Allowed(NearBoth, AfterLate(late), Arrive(32700, due))
    ensures Allowed(NearBoth, AfterDue(late, due), Arrive(32769, ahead))
    ensures !Allowed(OneHalfCircle, AfterDue(late, due), Arrive(32769, ahead))
    ensures var run := AfterAhead(late, due, ahead);
            && run.readIndex == 32700 && run.top == 32769
            && 32700 in run.packets && run.packets[32700] == due && 32700 !in run.reported
  {
    GapIsWhatLiesBetween(AfterLate(late).play.buffer, 0, 32700);
    GapIsWhatLiesBetween(AfterDue(late, due).play.buffer, 32700, 32769);
    TooFarSpread(AfterDue(late, due).play.buffer.data.Keys + {32769});
  }

  lemma StallingHistory<S>(late: seq<S>, due: seq<S>, ahead: seq<S>)
    ensures Exec(0, StallingRun(late, due, ahead)) == AfterAhead(late, due, ahead)
    ensures Follows(NearBoth, 0, StallingRun(late, due, ahead))
    ensures !Follows(OneHalfCircle, 0, StallingRun(late, due, ahead))
  {
    LateStarts(late);
    DueAndAhead(late, due, ahead);
    ExecOneMore(0, LateStart(late), Arrive(32700, due));
    ExecOneMore(0, LateStart(late) + [Arrive(32700, due)], Arrive(32769, ahead));
  }

  lemma DueIsAppended<V>(late: V, due: V)
    ensures forall n: nat ::
              Insert([Entry(0, late)], Wrap(32700), due, n, FromTheLeft()) == [Entry(0, late), Entry(32700, due)]
  {
    forall n: nat
      ensures Insert([Entry(0, late)], Wrap(32700), due, n, FromTheLeft()) == [Entry(0, late), Entry(32700, due)]
    {
      assert Lookup([Entry(0, late)], 32700, n, FromTheLeft()) == Missing(1);
    }
  }

  lemma AheadIsPrepended<V>(late: V, due: V, ahead: V)
    ensures var t := [Entry(0, late), Entry(32700, due)];
            var after := [Entry(32769, ahead), Entry(0, late), Entry(32700, due)];
            forall n: nat :: Insert(t, Wrap(32769), ahead, n, FromTheLeft()) == after
  {
    var t := [Entry(0, late), Entry(32700, due)];
    var after := [Entry(32769, ahead), Entry(0, late), Entry(32700, due)];
    forall n: nat
      ensures Insert(t, Wrap(32769), ahead, n, FromTheLeft()) == after
    {
      assert Lookup(t, 32769, n, FromTheLeft()) == Missing(0);
    }
  }

  lemma DueIsMissed<V>(late: V, due: V, ahead: V, n: nat)
    ensures var t := [Entry(32769, ahead), Entry(0, late), Entry(32700, due)];
            Lookup(t, 32700, n, FromTheLeft()) == Missing(0)
  {
  }

  /** An arrival that turns row t into row after, whichever search of the run it is. */
  lemma ArrivalGives<S>(
      r0: int, es: seq<Event<S>>, i: int, packet: seq<S>, picks: Picks, t: Table<seq<S>>, after: Table<seq<S>>)
    requires OrderedExec(r0, es, picks).buffer.table == t
    requires forall n: nat :: Insert(t, Wrap(i), packet, n, picks) == after
    ensures OrderedExec(r0, es + [Arrive(i, packet)], picks).buffer.table == after
    ensures OrderedExec(r0, es + [Arrive(i, packet)], picks).buffer.read == OrderedExec(r0, es, picks).buffer.read
  {
    OrderedOneMore(r0, es, Arrive(i, packet), picks);
  }

  lemma MissedIsNotPopped<S>(o: Ordered<S>, picks: Picks)
    requires Lookup(o.table, o.read, o.searches, picks).Missing?
    ensures OrderedPop(o, picks).1 == None
  {
  }

  lemma StallingTable<S>(late: seq<S>, due: seq<S>, ahead: seq<S>)
    ensures var o := OrderedExec(0, StallingRun(late, due, ahead), FromTheLeft()).buffer;
            && o.table == [Entry(32769, ahead), Entry(0, late), Entry(32700, due)] && o.read == 32700
  {
    var t0, t1 := [Entry(0, late)], [Entry(0, late), Entry(32700, due)];
    LateTable(late);
    DueIsAppended(late, due);
    ArrivalGives(0, LateStart(late), 32700, due, FromTheLeft(), t0, t1);
    AheadIsPrepended(late, due, ahead);
    ArrivalGives(0, LateStart(late) + [Arrive(32700, due)], 32769, ahead, FromTheLeft(),
                 t1, [Entry(32769, ahead), Entry(0, late), Entry(32700, due)]);
  }

  lemma StallingPop<S>(late: seq<S>, due: seq<S>, ahead: seq<S>)
    ensures OrderedPop(OrderedExec(0, StallingRun(late, due, ahead), FromTheLeft()).buffer, FromTheLeft()).1 == None
  {
    var o := OrderedExec(0, StallingRun(late, due, ahead), FromTheLeft()).buffer;
    StallingTable(late, due, ahead);
    DueIsMissed(late, due, ahead, o.searches);
    MissedIsNotPopped(o, FromTheLeft());
  }

  /** Without the half circle a reader can wait for a packet that has arrived, that was never
      requested, and that is not the first: the map still holds it, but a search misses it. */
  lemma StallOnAStoredPacket<S>(late: seq<S>, due: seq<S>, ahead: seq<S>)
    ensures var es := StallingRun(late, due, ahead);
            var run, o := Exec(0, es), OrderedExec(0, es, FromTheLeft()).buffer;
            && Follows(NearBoth, 0, es) && !Follows(OneHalfCircle, 0, es)
            && run.readIndex == 32700 && run.top == 32769
            && 32700 in run.packets && 32700 !in run.reported
            && o.table == [Entry(32769, ahead), Entry(0, late), Entry(32700, run.packets[32700])]
            && OrderedPop(o, FromTheLeft()).1 == None
  {
    StallingHistory(late, due, ahead);
    StallingTable(late, due, ahead);
    StallingPop(late, due, ahead);
    DueAndAhead(late, due, ahead);
  }

  /** From index 65536 back to index 10000 in steps within the writer's window, past a flush that clears
      what is in between. */
  function SteppingBack<S>(packet: seq<S>): seq<Event<S>> {
    [Arrive(65536, packet)] + [Arrive(40000, [])] + [FlushTo(50000)] + [Arrive(10000, [])]
  }

  ghost predicate BackAt10000<S>(run: Run<S>, packet: seq<S>) {
    && run.play.buffer.data == map[0 := packet, 10000 := []] && run.play.buffer.read == 50000
    && run.readIndex == 50000 && run.writeIndex == 10000
    && 65536 in run.packets && run.packets[65536] == packet
  }

  lemma OfOneHalf(base: Seq, stored: set<Seq>, s: Seq)
    requires WithinHalf(base, stored) && Dist(base, s) < 32768
    ensures InHalfCircle(stored + {s})
  {
    assert WithinHalf(base, stored + {s});
  }

  lemma StepsBack<S>(packet: seq<S>)
    ensures var r1 := Step(Start<S>(40000), Arrive(65536, packet));
            var r2 := Step(r1, Arrive(40000, []));
            var r3 := Step(r2, FlushTo(50000));
            && r1.play.buffer.data.Keys == {0}
            && r3.play.buffer.data.Keys == {0}
            && BackAt10000(Step(r3, Arrive(10000, [])), packet)
  {
    var r2 := Step(Step(Start<S>(40000), Arrive(65536, packet)), Arrive(40000, []));
    assert r2.play.buffer.data == map[0 := packet, 40000 := []];
    assert Flushed(r2.play.buffer, 50000).data == map[0 := packet];
  }

  lemma StepsBackAreAllowed<S>(packet: seq<S>, rule: Rule)
    requires rule == NearBoth || rule == OneHalfCircle
    ensures var r1 := Step(Start<S>(40000), Arrive(65536, packet));
            var r3 := Step(Step(r1, Arrive(40000, [])), FlushTo(50000));
            && Allowed(rule, Start<S>(40000), Arrive(65536, packet))
            && Allowed(rule, r1, Arrive(40000, []))
            && Allowed(rule, r3, Arrive(10000, []))
  {
    StepsBack(packet);
    assert Start<S>(40000).play.buffer.data.Keys == {};
    OfOneHalf(0, {}, 0);
    OfOneHalf(40000, {0}, 40000);
    OfOneHalf(0, {0}, 10000);
  }

  lemma SteppingIsAllowed<S>(packet: seq<S>, rule: Rule)
    requires rule == NearBoth || rule == OneHalfCircle
    ensures Follows(rule, 40000, SteppingBack(packet))
    ensures BackAt10000(Exec(40000, SteppingBack(packet)), packet)
  {
    var e1, e2, e3, e4 := Arrive(65536, packet), Arrive(40000, []), FlushTo(50000), Arrive(10000, []);
    StepsBack(packet);
    StepsBackAreAllowed(packet, rule);
    ExecOne(40000, e1);
    ExecOneMore(40000, [e1], e2);
    ExecOneMore(40000, [e1] + [e2], e3);
    ExecOneMore(40000, [e1] + [e2] + [e3], e4);
  }

  lemma StaleArrives<S>(es: seq<Event<S>>, packet: seq<S>, stale: seq<S>, rule: Rule)
    requires rule == NearBoth || rule == OneHalfCircle
    requires Follows(rule, 40000, es) && BackAt10000(Exec(40000, es), packet)
    ensures var run := Exec(40000, es + [Arrive(0, stale)]);
            && Follows(rule, 40000, es + [Arrive(0, stale)])
            && run.readIndex == 50000 && 65536 in run.packets && run.packets[65536] == packet
            && 0 in run.play.buffer.data && run.play.buffer.data[0] == stale
  {
    var e := Arrive(0, stale);
    ExecOneMore(40000, es, e);
    assert Exec(40000, es).play.buffer.data.Keys == {0, 10000};
    OfOneHalf(0, {0, 10000}, 0);
  }

  /** A packet of an earlier lap takes the place of one that is still due, when it comes in half a
      window or more behind the reader. */
  lemma StalePacketReplaces<S>(packet: seq<S>, stale: seq<S>, picks: Picks, n: nat)
    ensures var es := SteppingBack(packet) + [Arrive(0, stale)];
            var table := OrderedExec(40000, es, picks).buffer.table;
            var probe := Lookup(table, Wrap(65536), n, picks);
            && Follows(NearBoth, 40000, es) && Follows(OneHalfCircle, 40000, es)
            && Exec(40000, es).readIndex == 50000
            && 65536 in Exec(40000, es).packets && Exec(40000, es).packets[65536] == packet
            && probe.Found? && table[probe.at].value == stale
  {
    var before := SteppingBack(packet);
    SteppingIsAllowed(packet, NearBoth);
    SteppingIsAllowed(packet, OneHalfCircle);
    StaleArrives(before, packet, stale, NearBoth);
    StaleArrives(before, packet, stale, OneHalfCircle);
    FoundInTable(40000, before + [Arrive(0, stale)], picks, 0, n);
  }

  // ---------------------------------------------------------------------------------
  // Forward runs
  // ---------------------------------------------------------------------------------

  function Arrivals<S>(es: seq<Event<S>>): nat {
    if es == [] then 0 else Arrivals(es[..|es| - 1]) + (if es[|es| - 1].Arrive? then 1 else 0)
  }

  /** The counts of all requests sent: one for each arrival whose range is not empty. */
  function RequestedTotal<S>(r0: int, es: seq<Event<S>>): int {
    if es == [] then 0
    else
      var before, e := es[..|es| - 1], es[|es| - 1];
      var gap := if e.Arrive? then Gap(Exec(r0, before).play.buffer, Wrap(e.index)) else Range(0, 0);
      RequestedTotal(r0, before) + (if gap.IsEmpty() then 0 else WireCount(gap))
  }

  ghost predicate Partitions<S>(run: Run<S>) {
    && run.top == run.writeIndex >= run.initial
    && (forall k :: k in run.packets ==> k !in run.reported)
    && (forall k :: k in run.packets || k in run.reported <==> run.initial < k <= run.writeIndex)
  }

  lemma ArrivalPartitions<S>(run: Run<S>, i: int, packet: seq<S>)
    requires Partitions(run) && MarkersAreImages(run) && run.writeIndex < i <= run.writeIndex + 32768
    ensures Partitions(Step(run, Arrive(i, packet)))
  {
    GapIsWhatLiesBetween(run.play.buffer, run.writeIndex, i);
  }

  lemma ArrivalCounts<S>(b: Buffer<S>, w: int, i: int)
    requires b.write == Wrap(w) && w < i <= w + 32768
    ensures 1 + (if Gap(b, Wrap(i)).IsEmpty() then 0 else WireCount(Gap(b, Wrap(i)))) == i - w
  {
    if w + 1 < i {
      RequestAsksForTheMissing(b, w, i);
    } else {
      WrapNext(w);
    }
  }

  /** When every arrival is ahead of the one before, arrivals and reports partition the indices
      after the first up to the last arrival, and the wire counts add up. */
  lemma {:induction false} ForwardRunsPartition<S>(r0: int, es: seq<Event<S>>)
    requires Follows(AheadOfWriter, r0, es)
    ensures Partitions(Exec(r0, es)) && Exec(r0, es).initial == r0
    ensures Arrivals(es) + RequestedTotal(r0, es) == Exec(r0, es).writeIndex - r0
  {
    if es != [] {
      var before, e := es[..|es| - 1], es[|es| - 1];
      ForwardRunsPartition(r0, before);
      MarkersStayImages(r0, before);
      if e.Arrive? {
        var run := Exec(r0, before);
        ArrivalPartitions(run, e.index, e.packet);
        ArrivalCounts(run.play.buffer, run.writeIndex, e.index);
      }
    }
  }
}
