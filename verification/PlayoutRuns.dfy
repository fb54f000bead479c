/** Whole runs of the playout buffer: the player task (arrivals and flushes) and the audio
    thread (single steps of next()) interleave in any order. Packets are named by unbounded
    indices; the program only ever sees their 16-bit images. */
module PlayoutRuns {
  import opened SeqNumbers
  import opened Basics
  import opened FrameBuffers

  // ---------------------------------------------------------------------------------
  // Events and runs
  // ---------------------------------------------------------------------------------

  datatype Event<S> =
    | Arrive(index: int, packet: seq<S>)
    | FlushTo(index: int)
    | Audio

  /** `play` is what the program holds. The rest is history, in packet indices: where the two
      markers stand, the highest index that arrived, the latest packet that arrived under each
      index, the indices reported missing, and the indices handed to the audio thread. */
  datatype Run<S> = Run(
    play: Playout<S>,
    initial: int, readIndex: int, writeIndex: int, top: int,
    packets: map<int, seq<S>>, reported: set<int>, played: seq<int>)

  function Start<S>(r0: int): Run<S> {
    Run(Playout(Empty(Wrap(r0)), None, Idle, []), r0, r0, r0, r0, map[], {}, [])
  }

  /** The indices from lo up to, but without, hi. */
  function Interval(lo: int, hi: int): (ks: set<int>)
    ensures forall k :: k in ks <==> lo <= k < hi
    decreases hi - lo
  {
    if lo >= hi then {} else {lo} + Interval(lo + 1, hi)
  }

  /** The indices behind a reported range: as many as an iterator over it visits, ending just
      below the index that arrived. */
  function Unwound(missing: Range, arrived: int): set<int> {
    Interval(arrived - |SeqIter(missing.start, missing.end)|, arrived)
  }

  function Step<S>(run: Run<S>, e: Event<S>): Run<S> {
    var b := run.play.buffer;
    match e
    case Arrive(i, packet) =>
      run.(play := run.play.(buffer := Added(b, Wrap(i), packet)),
           writeIndex := i,
           top := if i > run.top then i else run.top,
           packets := run.packets[i := packet],
           reported := run.reported + Unwound(Gap(b, Wrap(i)), i))
    case FlushTo(j) =>
      run.(play := run.play.(buffer := Flushed(b, Wrap(j))), readIndex := j)
    case Audio =>
      if run.play.phase == Locking && Front(b).Some? then
        run.(play := AudioStep(run.play),
             readIndex := run.readIndex + 1,
             played := run.played + [run.readIndex])
      else
        run.(play := AudioStep(run.play))
  }

  function Exec<S>(r0: int, es: seq<Event<S>>): Run<S> {
    if es == [] then Start(r0) else Step(Exec(r0, es[..|es| - 1]), es[|es| - 1])
  }

  // ---------------------------------------------------------------------------------
  // What the sender is assumed to do
  // ---------------------------------------------------------------------------------

  datatype Rule =
    | AnyArrival
    | AheadOfReader   // at the read marker or less than half a window ahead of it
    | NearWriter      // within half a window of the previous arrival
    | NearBoth        // NearWriter, and less than half a window ahead of the read marker
    | AroundReader    // less than half a window ahead of the read marker or behind it
    | OneHalfCircle   // its number lies in one half circle with all numbers that are stored
    | AheadOfWriter   // strictly after the previous arrival, within half a window

  /** A flush names its target by the first index at or after the read marker with that
      number, so every number on the circle is a possible target. */
  ghost predicate Allowed<S>(rule: Rule, run: Run<S>, e: Event<S>) {
    match e
    case Arrive(i, _) =>
      (match rule
       case AnyArrival => true
       case AheadOfReader => run.readIndex <= i < run.readIndex + 32768
       case NearWriter => run.writeIndex - 32766 <= i <= run.writeIndex + 32768
       case NearBoth =>
         run.writeIndex - 32766 <= i <= run.writeIndex + 32768 && i < run.readIndex + 32768
       case AroundReader => run.readIndex - 32768 < i < run.readIndex + 32768
       case OneHalfCircle => InHalfCircle(run.play.buffer.data.Keys + {Wrap(i)})
       case AheadOfWriter => run.writeIndex < i <= run.writeIndex + 32768)
    case FlushTo(j) => run.readIndex <= j < run.readIndex + 65536
    case Audio => true
  }

  ghost predicate Follows<S>(rule: Rule, r0: int, es: seq<Event<S>>) {
    es == [] ||
    (Follows(rule, r0, es[..|es| - 1]) && Allowed(rule, Exec(r0, es[..|es| - 1]), es[|es| - 1]))
  }

  lemma ExecOneMore<S>(r0: int, es: seq<Event<S>>, e: Event<S>)
    ensures Exec(r0, es + [e]) == Step(Exec(r0, es), e)
    ensures forall rule: Rule ::
              Follows(rule, r0, es + [e]) <==> Follows(rule, r0, es) && Allowed(rule, Exec(r0, es), e)
  {
    assert (es + [e])[..|es + [e]| - 1] == es;
  }

  lemma ExecOne<S>(r0: int, e: Event<S>)
    ensures Exec(r0, [e]) == Step(Start(r0), e)
    ensures forall rule: Rule :: Follows(rule, r0, [e]) <==> Allowed(rule, Start<S>(r0), e)
  {
    assert [] + [e] == [e];
    ExecOneMore(r0, [], e);
  }

  lemma {:induction false} FollowsPrefix<S>(rule: Rule, r0: int, es: seq<Event<S>>, n: nat)
    requires Follows(rule, r0, es) && n <= |es|
    ensures Follows(rule, r0, es[..n])
  {
    if n < |es| {
      assert es[..|es| - 1][..n] == es[..n];
      FollowsPrefix(rule, r0, es[..|es| - 1], n);
    } else {
      assert es[..n] == es;
    }
  }

  // ---------------------------------------------------------------------------------
  // The 16-bit state is the image of the indices
  // ---------------------------------------------------------------------------------

  ghost predicate MarkersAreImages<S>(run: Run<S>) {
    run.play.buffer.read == Wrap(run.readIndex) && run.play.buffer.write == Wrap(run.writeIndex)
  }

  lemma StepKeepsImages<S>(run: Run<S>, e: Event<S>)
    requires MarkersAreImages(run)
    ensures MarkersAreImages(Step(run, e))
  {
    WrapNext(run.readIndex);
  }

  lemma {:induction false} MarkersStayImages<S>(r0: int, es: seq<Event<S>>)
    ensures MarkersAreImages(Exec(r0, es)) && Exec(r0, es).initial == r0
  {
    if es != [] {
      MarkersStayImages(r0, es[..|es| - 1]);
      StepKeepsImages(Exec(r0, es[..|es| - 1]), es[|es| - 1]);
    }
  }

  /** What the buffer holds under number s is the packet of the index that s stands for, counted from
      index r of the read marker. */
  ghost predicate MirrorsAt<S>(b: Buffer<S>, r: int, packets: map<int, seq<S>>, s: Seq) {
    && (s in b.data <==> Dist(b.read, s) < 32768 && r + Dist(b.read, s) in packets)
    && (s in b.data ==> b.data[s] == packets[r + Dist(b.read, s)])
  }

  /** The buffer holds exactly the packets that arrived under the 2^15 indices from r on, the index
      of its read marker, and nothing has arrived beyond those. */
  ghost predicate Mirrors<S>(b: Buffer<S>, r: int, packets: map<int, seq<S>>) {
    && (forall k :: k in packets ==> k < r + 32768)
    && (forall s: Seq :: MirrorsAt(b, r, packets, s))
  }

  ghost predicate HoldsTheWindow<S>(b: Buffer<S>, r: int, packets: map<int, seq<S>>) {
    b.read == Wrap(r) && Mirrors(b, r, packets)
  }

  lemma ArrivalMirrorsAt<S>(b: Buffer<S>, r: int, packets: map<int, seq<S>>, at: Seq, i: int, packet: seq<S>, s: Seq)
    requires MirrorsAt(b, r, packets, s) && i == r + Dist(b.read, at) < r + 32768
    ensures MirrorsAt(Added(b, at, packet), r, packets[i := packet], s)
  {
    if s != at && Dist(b.read, s) == Dist(b.read, at) {
      DistInjective(b.read, s, at);
    }
  }

  lemma ArrivalMirrors<S>(b: Buffer<S>, r: int, packets: map<int, seq<S>>, at: Seq, i: int, packet: seq<S>)
    requires Mirrors(b, r, packets) && i == r + Dist(b.read, at) < r + 32768
    ensures Mirrors(Added(b, at, packet), r, packets[i := packet])
  {
    var c, after := Added(b, at, packet), packets[i := packet];
    forall s: Seq
      ensures MirrorsAt(c, r, after, s)
    {
      assert MirrorsAt(b, r, packets, s);
      ArrivalMirrorsAt(b, r, packets, at, i, packet, s);
    }
  }

  lemma ArrivalKeepsWindow<S>(b: Buffer<S>, r: int, packets: map<int, seq<S>>, i: int, packet: seq<S>)
    requires HoldsTheWindow(b, r, packets) && r <= i < r + 32768
    ensures HoldsTheWindow(Added(b, Wrap(i), packet), r, packets[i := packet])
  {
    WrapDist(r, i);
    ArrivalMirrors(b, r, packets, Wrap(i), i, packet);
  }

  /** Distances from a read marker that has moved on. */
  lemma DistAfterWalk(from: Seq, to: Seq, s: Seq)
    ensures OnWalk(from, s, to) ==> Dist(to, s) == Dist(from, s) - Dist(from, to) + 65536
    ensures !OnWalk(from, s, to) ==> Dist(to, s) == Dist(from, s) - Dist(from, to)
  {
  }

  lemma WalkMirrors<S>(b: Buffer<S>, r: int, packets: map<int, seq<S>>, to: Seq)
    requires Mirrors(b, r, packets)
    ensures Mirrors(Flushed(b, to), r + Dist(b.read, to), packets)
  {
    var c, r' := Flushed(b, to), r + Dist(b.read, to);
    forall s: Seq
      ensures MirrorsAt(c, r', packets, s)
    {
      assert MirrorsAt(b, r, packets, s);
      DistAfterWalk(b.read, to, s);
    }
  }

  /** Walking n numbers on keeps the invariant for the read marker n indices later. */
  lemma WalkKeepsWindow<S>(b: Buffer<S>, r: int, packets: map<int, seq<S>>, n: nat)
    requires HoldsTheWindow(b, r, packets) && n < 65536
    ensures HoldsTheWindow(Flushed(b, Wrap(r + n)), r + n, packets)
  {
    WrapDist(r, r + n);
    WalkMirrors(b, r, packets, Wrap(r + n));
  }

  ghost predicate RunHoldsTheWindow<S>(run: Run<S>) {
    HoldsTheWindow(run.play.buffer, run.readIndex, run.packets)
  }

  lemma StepKeepsWindow<S>(run: Run<S>, e: Event<S>)
    requires RunHoldsTheWindow(run) && Allowed(AheadOfReader, run, e)
    ensures RunHoldsTheWindow(Step(run, e))
  {
    var b := run.play.buffer;
    match e
    case Arrive(i, packet) => ArrivalKeepsWindow(b, run.readIndex, run.packets, i, packet);
    case FlushTo(j) => WalkKeepsWindow(b, run.readIndex, run.packets, j - run.readIndex);
    case Audio =>
      if run.play.phase == Locking && Front(b).Some? {
        FlushByOne(b);
        WrapNext(run.readIndex);
        WalkKeepsWindow(b, run.readIndex, run.packets, 1);
      }
  }

  lemma {:induction false} WindowHolds<S>(r0: int, es: seq<Event<S>>)
    requires Follows(AheadOfReader, r0, es)
    ensures RunHoldsTheWindow(Exec(r0, es))
  {
    if es != [] {
      WindowHolds(r0, es[..|es| - 1]);
      StepKeepsWindow(Exec(r0, es[..|es| - 1]), es[|es| - 1]);
    }
  }

  /** Arrivals in the reader's window share the half circle that starts at the read marker with all
      that is stored. */
  lemma {:induction false} WindowIsOneHalfCircle<S>(r0: int, es: seq<Event<S>>)
    requires Follows(AheadOfReader, r0, es)
    ensures Follows(OneHalfCircle, r0, es)
  {
    if es != [] {
      var before, e := es[..|es| - 1], es[|es| - 1];
      WindowIsOneHalfCircle(r0, before);
      WindowHolds(r0, before);
      if e.Arrive? {
        ArrivalSharesTheHalfCircle(Exec(r0, before), e.index);
      }
    }
  }

  lemma ArrivalSharesTheHalfCircle<S>(run: Run<S>, i: int)
    requires RunHoldsTheWindow(run) && run.readIndex <= i < run.readIndex + 32768
    ensures InHalfCircle(run.play.buffer.data.Keys + {Wrap(i)})
  {
    var b := run.play.buffer;
    WrapDist(run.readIndex, i);
    forall s | s in b.data.Keys + {Wrap(i)}
      ensures Dist(b.read, s) < 32768
    {
      assert MirrorsAt(b, run.readIndex, run.packets, s);
    }
    assert WithinHalf(b.read, b.data.Keys + {Wrap(i)});
  }

  /** A flush backwards by at most half a circle leaves nothing in the buffer: its walk goes
      round the other way, over the whole window. */
  lemma FlushBackwardsEmpties<S>(r0: int, es: seq<Event<S>>, back: int)
    requires Follows(AheadOfReader, r0, es) && 0 < back <= 32768
    ensures Flushed(Exec(r0, es).play.buffer, Wrap(Exec(r0, es).readIndex - back)).data == map[]
  {
    var run := Exec(r0, es);
    var b, to := run.play.buffer, Wrap(run.readIndex - back);
    WindowHolds(r0, es);
    WrapDist(run.readIndex - back, run.readIndex);
    forall s: Seq | s in b.data
      ensures OnWalk(b.read, s, to)
    {
      assert MirrorsAt(b, run.readIndex, run.packets, s);
    }
  }

  lemma AudioOnceMore<S>(r0: int, es: seq<Event<S>>)
    ensures Exec(r0, es + [Audio]).play == AudioStep(Exec(r0, es).play)
  {
    assert (es + [Audio])[..|es + [Audio]| - 1] == es;
  }

  /** A call of next() that nobody interrupts is one audio step of a run, or three. */
  lemma CallIsSteps<S>(r0: int, es: seq<Event<S>>)
    requires Exec(r0, es).play.phase == Idle
    ensures var p := Exec(r0, es).play;
            AudioCall(p) == if HasSample(p.current) then Exec(r0, es + [Audio]).play
                            else Exec(r0, es + [Audio] + [Audio] + [Audio]).play
    ensures AudioCall(Exec(r0, es).play).phase == Idle
  {
    AudioOnceMore(r0, es);
    AudioOnceMore(r0, es + [Audio]);
    AudioOnceMore(r0, es + [Audio] + [Audio]);
  }
}
