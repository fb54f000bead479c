/** Every sample that arrives is accounted for, in every run, with no assumption on arrivals: also when
    keys spread so far that the ordered map misses some of them and keeps others twice. */
module Conservation {
  import opened SeqNumbers
  import opened Basics
  import opened FrameBuffers
  import opened PlayoutRuns
  import opened Playback
  import opened OrderedMaps

  /** How often sample value v occurs in a packet. */
  ghost function Copies<S>(v: S, packet: seq<S>): nat {
    multiset(packet)[v]
  }

  /** How often v occurs in all entries of a table. */
  ghost function Stored<S>(v: S, t: Table<seq<S>>): nat {
    if t == [] then 0 else Copies(v, t[0].value) + Stored(v, t[1..])
  }

  lemma {:induction false} StoredInBoth<S>(v: S, front: Table<seq<S>>, back: Table<seq<S>>)
    ensures Stored(v, front + back) == Stored(v, front) + Stored(v, back)
  {
    if front == [] {
      assert front + back == back;
    } else {
      assert (front + back)[1..] == front[1..] + back;
      StoredInBoth(v, front[1..], back);
    }
  }

  /** What is stored is what the entry at one place holds and what is before and after it. */
  lemma StoredAround<S>(v: S, t: Table<seq<S>>, at: nat)
    requires at < |t|
    ensures Stored(v, t) == Stored(v, t[..at]) + Copies(v, t[at].value) + Stored(v, t[at + 1..])
  {
    assert t == t[..at] + t[at..];
    StoredInBoth(v, t[..at], t[at..]);
  }

  // ---------------------------------------------------------------------------------
  // What an operation loses
  // ---------------------------------------------------------------------------------

  ghost function Arrived<S>(v: S, es: seq<Event<S>>): nat {
    if es == [] then 0
    else Arrived(v, es[..|es| - 1]) + (if es[|es| - 1].Arrive? then Copies(v, es[|es| - 1].packet) else 0)
  }

  /** The packet whose entry an insertion takes over. */
  function Replaced<S>(t: Table<seq<S>>, k: Seq, n: nat, picks: Picks): seq<S> {
    var probe := Lookup(t, k, n, picks);
    if probe.Found? then t[probe.at].value else []
  }

  /** Lost because an arrival replaces a packet. */
  ghost function LostToArrival<S>(v: S, o: Ordered<S>, e: Event<S>, picks: Picks): nat {
    if e.Arrive? then Copies(v, Replaced(o.table, Wrap(e.index), o.searches, picks)) else 0
  }

  /** In all packets that the turns of a flush loop take out. */
  ghost function TakenOnWalk<S>(v: S, o: Ordered<S>, s: Seq, picks: Picks): nat
    decreases Dist(o.read, s)
  {
    if o.read == s then 0
    else Copies(v, Rest(Remove(o.table, o.read, o.searches, picks).1)) + TakenOnWalk(v, FlushTurn(o, picks), s, picks)
  }

  /** Lost because a flush takes packets out. */
  ghost function LostToFlush<S>(v: S, o: Ordered<S>, e: Event<S>, picks: Picks): nat {
    if e.FlushTo? then TakenOnWalk(v, o, Wrap(e.index), picks) else 0
  }

  ghost function Overwritten<S>(v: S, r0: int, es: seq<Event<S>>, picks: Picks): nat {
    if es == [] then 0
    else Overwritten(v, r0, es[..|es| - 1], picks) +
         LostToArrival(v, OrderedExec(r0, es[..|es| - 1], picks).buffer, es[|es| - 1], picks)
  }

  ghost function FlushedAway<S>(v: S, r0: int, es: seq<Event<S>>, picks: Picks): nat {
    if es == [] then 0
    else FlushedAway(v, r0, es[..|es| - 1], picks) +
         LostToFlush(v, OrderedExec(r0, es[..|es| - 1], picks).buffer, es[|es| - 1], picks)
  }

  ghost function InProgram<S>(v: S, o: OrderedPlayout<S>): nat {
    Copies(v, Audible(o.out)) + Copies(v, Rest(o.current)) + Stored(v, o.buffer.table)
  }

  // ---------------------------------------------------------------------------------
  // One operation
  // ---------------------------------------------------------------------------------

  lemma InsertConserves<S>(v: S, t: Table<seq<S>>, k: Seq, packet: seq<S>, n: nat, picks: Picks)
    ensures Stored(v, Insert(t, k, packet, n, picks)) + Copies(v, Replaced(t, k, n, picks)) ==
            Stored(v, t) + Copies(v, packet)
  {
    var after := Insert(t, k, packet, n, picks);
    match Lookup(t, k, n, picks)
    case Found(at) =>
      assert after[..at] == t[..at] && after[at + 1..] == t[at + 1..];
      StoredAround(v, t, at);
      StoredAround(v, after, at);
    case Missing(at) =>
      assert after[..at] == t[..at] && after[at + 1..] == t[at..] && t == t[..at] + t[at..];
      StoredAround(v, after, at);
      StoredInBoth(v, t[..at], t[at..]);
  }

  lemma RemoveConserves<S>(v: S, t: Table<seq<S>>, k: Seq, n: nat, picks: Picks)
    ensures var (after, packet) := Remove(t, k, n, picks);
            Stored(v, after) + Copies(v, Rest(packet)) == Stored(v, t)
  {
    match Lookup(t, k, n, picks)
    case Found(at) =>
      StoredAround(v, t, at);
      StoredInBoth(v, t[..at], t[at + 1..]);
    case Missing(_) =>
  }

  lemma {:induction false} WalkConserves<S>(v: S, o: Ordered<S>, s: Seq, picks: Picks)
    ensures Stored(v, Walk(o, s, picks).table) + TakenOnWalk(v, o, s, picks) == Stored(v, o.table)
    decreases Dist(o.read, s)
  {
    if o.read != s {
      RemoveConserves(v, o.table, o.read, o.searches, picks);
      WalkConserves(v, FlushTurn(o, picks), s, picks);
    }
  }

  /** The two steps that do not look at the buffer only move samples from hand to ear. */
  lemma PlayingConserves<S>(v: S, o: OrderedPlayout<S>, picks: Picks)
    requires o.phase != Locking
    ensures InProgram(v, OrderedStep(o, Audio, picks)) == InProgram(v, o)
  {
    var p := Playout(Empty<S>(0), o.current, o.phase, o.out);
    var q := AudioStep(p);
    AudioStepMovesSamples(p);
    var before, after := Audible(p.out) + Rest(p.current), Audible(q.out) + Rest(q.current);
    assert after == before;
    assert Copies(v, after) == Copies(v, Audible(q.out)) + Copies(v, Rest(q.current));
    assert Copies(v, before) == Copies(v, Audible(p.out)) + Copies(v, Rest(p.current));
  }

  lemma PopConserves<S>(v: S, o: OrderedPlayout<S>, picks: Picks)
    requires o.phase == Locking && o.current == None
    ensures InProgram(v, OrderedStep(o, Audio, picks)) == InProgram(v, o)
  {
    RemoveConserves(v, o.buffer.table, o.buffer.read, o.buffer.searches, picks);
  }

  // ---------------------------------------------------------------------------------
  // Whole runs
  // ---------------------------------------------------------------------------------

  lemma {:induction false} NothingHeldWhileLocking<S>(r0: int, es: seq<Event<S>>, picks: Picks)
    ensures var o := OrderedExec(r0, es, picks);
            o.phase == Locking ==> o.current == None
  {
    if es != [] {
      NothingHeldWhileLocking(r0, es[..|es| - 1], picks);
    }
  }

  lemma StepConserves<S>(v: S, o: OrderedPlayout<S>, e: Event<S>, picks: Picks)
    requires o.phase == Locking ==> o.current == None
    ensures InProgram(v, OrderedStep(o, e, picks)) +
              LostToArrival(v, o.buffer, e, picks) + LostToFlush(v, o.buffer, e, picks)
         == InProgram(v, o) + (if e.Arrive? then Copies(v, e.packet) else 0)
  {
    match e
    case Arrive(i, packet) => InsertConserves(v, o.buffer.table, Wrap(i), packet, o.buffer.searches, picks);
    case FlushTo(j) => WalkConserves(v, o.buffer, Wrap(j), picks);
    case Audio =>
      if o.phase == Locking {
        PopConserves(v, o, picks);
      } else {
        PlayingConserves(v, o, picks);
      }
  }

  /** In every run, whatever arrives, is flushed and is played, in whatever order, and whichever keys
      the map's searches compare: each sample value has arrived as often as it was emitted, is in the
      packet in hand, is in an entry of the map, was taken out by a flush, and was in an entry that an
      arrival took over, taken together. */
  lemma {:induction false} SamplesAreConserved<S>(v: S, r0: int, es: seq<Event<S>>, picks: Picks)
    ensures var o := OrderedExec(r0, es, picks);
            Arrived(v, es) ==
              Copies(v, Audible(o.out)) + Copies(v, Rest(o.current)) + Stored(v, o.buffer.table) +
              FlushedAway(v, r0, es, picks) + Overwritten(v, r0, es, picks)
  {
    if es != [] {
      SamplesAreConserved(v, r0, es[..|es| - 1], picks);
      NothingHeldWhileLocking(r0, es[..|es| - 1], picks);
      StepConserves(v, OrderedExec(r0, es[..|es| - 1], picks), es[|es| - 1], picks);
    }
  }
}
