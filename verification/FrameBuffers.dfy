/** The playout buffer and the sample source that drains it. A packet is the sequence of
    samples its iterator has still to deliver. */
module FrameBuffers {
  import opened SeqNumbers
  import opened Basics

  // ---------------------------------------------------------------------------------
  // The buffer's abstract value
  // ---------------------------------------------------------------------------------

  datatype Buffer<S> = Buffer(data: map<Seq, seq<S>>, read: Seq, write: Seq)

  function Empty<S>(initial: Seq): Buffer<S> {
    Buffer(map[], initial, initial)
  }

  function Added<S>(b: Buffer<S>, s: Seq, packet: seq<S>): Buffer<S> {
    Buffer(b.data[s := packet], b.read, s)
  }

  /** What add_packet reports: everything after the previous arrival and before this one. */
  function Gap<S>(b: Buffer<S>, s: Seq): Range {
    Range(Next(b.write), s)
  }

  /** k is met on the walk around the circle that starts at `from` and stops before `to`. */
  predicate OnWalk(from: Seq, k: Seq, to: Seq) {
    Dist(from, k) < Dist(from, to)
  }

  function Flushed<S>(b: Buffer<S>, s: Seq): Buffer<S> {
    Buffer(map k | k in b.data && !OnWalk(b.read, k, s) :: b.data[k], s, b.write)
  }

  function Front<S>(b: Buffer<S>): Option<seq<S>> {
    if b.read in b.data then Some(b.data[b.read]) else None
  }

  function Popped<S>(b: Buffer<S>): Buffer<S> {
    if b.read in b.data then Buffer(b.data - {b.read}, Next(b.read), b.write) else b
  }

  // ---------------------------------------------------------------------------------
  // The audio thread: one call of next() is up to three steps, and the player can run
  // between them, because only the middle one holds the lock
  // ---------------------------------------------------------------------------------

  datatype Emission<S> = Sample(value: S) | Silence

  datatype Phase =
    | Idle      // before a call
    | Locking   // the current packet is used up, the lock is not yet taken
    | Draining  // the lock has been released, the popped packet not yet looked at

  datatype Playout<S> =
    Playout(buffer: Buffer<S>, current: Option<seq<S>>, phase: Phase, out: seq<Emission<S>>)

  predicate HasSample<S>(current: Option<seq<S>>) {
    current.Some? && |current.value| > 0
  }

  function AudioStep<S>(p: Playout<S>): Playout<S> {
    match p.phase
    case Locking =>
      p.(buffer := Popped(p.buffer), current := Front(p.buffer), phase := Draining)
    case _ =>
      if HasSample(p.current) then
        p.(current := Some(p.current.value[1..]), phase := Idle, out := p.out + [Sample(p.current.value[0])])
      else if p.phase == Idle then
        p.(current := None, phase := Locking)
      else
        p.(current := None, phase := Idle, out := p.out + [Silence])
  }

  /** A whole call of next() during which the player does not run. */
  function AudioCall<S>(p: Playout<S>): Playout<S>
    requires p.phase == Idle
  {
    var q := AudioStep(p);
    if q.phase == Idle then q else AudioStep(AudioStep(q))
  }

  // ---------------------------------------------------------------------------------
  // The program
  // ---------------------------------------------------------------------------------

  class FrameBuffer<S> {
    var data: map<Seq, seq<S>>
    var readMarker: Seq
    var writeMarker: Seq

    ghost function Model(): Buffer<S>
      reads this
    {
      Buffer(data, readMarker, writeMarker)
    }

    constructor (initialSeq: Seq)
      ensures Model() == Empty(initialSeq)
    {
      data, readMarker, writeMarker := map[], initialSeq, initialSeq;
    }

    method AddPacket(s: Seq, packet: seq<S>) returns (missing: Range)
      modifies this
      ensures Model() == Added(old(Model()), s, packet)
      ensures missing == Gap(old(Model()), s)
    {
      var oldWriteMarker := writeMarker;
      writeMarker := s;
      data := data[s := packet];
      return Range(Next(oldWriteMarker), s);
    }

    /** The loop takes exactly Dist(read marker, s) turns and removes exactly the keys it
        walks over. */
    method Flush(s: Seq) returns (ghost turns: nat)
      modifies this
      ensures Model() == Flushed(old(Model()), s)
      ensures turns == Dist(old(readMarker), s)
    {
      turns := 0;
      while readMarker != s
        invariant turns == Dist(old(readMarker), readMarker)
        invariant turns + Dist(readMarker, s) == Dist(old(readMarker), s)
        invariant writeMarker == old(writeMarker)
        invariant data == map k | k in old(data) && !OnWalk(old(readMarker), k, readMarker) :: old(data)[k]
        decreases Dist(readMarker, s)
      {
        data := data - {readMarker};
        readMarker := Next(readMarker);
        turns := turns + 1;
      }
    }

    method PopFront() returns (packet: Option<seq<S>>)
      modifies this
      ensures packet == Front(old(Model()))
      ensures Model() == Popped(old(Model()))
    {
      if readMarker in data {
        packet := Some(data[readMarker]);
        data := data - {readMarker};
        readMarker := Next(readMarker);
      } else {
        packet := None;
      }
    }
  }

  class FrameBufferSource<S> {
    const frameBuffer: FrameBuffer<S>
    const channels: int
    const sampleRate: int
    const zeroValue: S
    var current: Option<seq<S>>

    constructor (frameBuffer: FrameBuffer<S>, channels: int, sampleRate: int, zeroValue: S)
      requires channels != 0 && sampleRate != 0
      ensures this.frameBuffer == frameBuffer && this.zeroValue == zeroValue
      ensures this.channels == channels && this.sampleRate == sampleRate
      ensures current == None
    {
      this.frameBuffer, this.channels, this.sampleRate := frameBuffer, channels, sampleRate;
      this.zeroValue := zeroValue;
      current := None;
    }

    /** One sample, always; `emission` tells a played sample from the silence that fills in. */
    method NextSample() returns (sample: Option<S>, ghost emission: Emission<S>)
      modifies this, frameBuffer
      ensures Playout(frameBuffer.Model(), current, Idle, [emission])
           == AudioCall(Playout(old(frameBuffer.Model()), old(current), Idle, []))
      ensures sample == Some(if emission.Sample? then emission.value else zeroValue)
      ensures emission == Silence <==>
              !old(HasSample(current)) && !old(HasSample(Front(frameBuffer.Model())))
    {
      var cur := current;
      current := None;
      if cur.Some? {
        if |cur.value| > 0 {
          current := Some(cur.value[1..]);
          return Some(cur.value[0]), Sample(cur.value[0]);
        }
      }

      current := frameBuffer.PopFront();

      cur := current;
      current := None;
      if cur.Some? {
        if |cur.value| > 0 {
          current := Some(cur.value[1..]);
          return Some(cur.value[0]), Sample(cur.value[0]);
        }
      }
      return Some(zeroValue), Silence;
    }
  }

  // ---------------------------------------------------------------------------------
  // Laws of flush
  // ---------------------------------------------------------------------------------

  /** A walk of one step removes one key. */
  lemma FlushByOne<S>(b: Buffer<S>)
    ensures Flushed(b, Next(b.read)) == Buffer(b.data - {b.read}, Next(b.read), b.write)
  {
    assert forall k: Seq :: OnWalk(b.read, k, Next(b.read)) <==> k == b.read;
    assert Flushed(b, Next(b.read)).data == b.data - {b.read};
  }

  /** Flushing twice is flushing once when the first target lies on the walk to the second;
      otherwise the two walks together cover the circle and nothing survives. */
  lemma FlushComposes<S>(b: Buffer<S>, first: Seq, second: Seq)
    ensures Dist(b.read, first) <= Dist(b.read, second) ==>
              Flushed(Flushed(b, first), second) == Flushed(b, second)
    ensures Dist(b.read, first) > Dist(b.read, second) ==>
              Flushed(Flushed(b, first), second).data == map[]
    ensures Flushed(Flushed(b, first), second) == Flushed(b, second) <==>
            Dist(b.read, first) <= Dist(b.read, second) || Flushed(b, second).data == map[]
  {
    var twice, once := Flushed(Flushed(b, first), second), Flushed(b, second);
    if Dist(b.read, first) <= Dist(b.read, second) {
      assert twice.data == once.data;
    } else {
      assert forall k :: k in b.data && !OnWalk(b.read, k, first) ==> OnWalk(first, k, second);
      assert twice.data == map[];
    }
  }
}
