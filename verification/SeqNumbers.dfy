/** 16-bit RTP sequence numbers, and the unbounded packet indices they are the images of. */
module SeqNumbers {

  type Seq = n: int | 0 <= n < 65536

  /** The successor on the number circle (wrapping increment of a 16-bit word). */
  function Next(s: Seq): Seq {
    if s == 65535 then 0 else s + 1
  }

  /** The comparison of section 3.2 of RFC 1982 for SERIAL_BITS = 16. The RFC leaves two
      numbers at distance exactly 2^15 unordered, and so does this predicate. */
  predicate Less(a: Seq, b: Seq) {
    (a < b && b - a < 32768) || (a > b && a - b > 32768)
  }

  /** How many times Next must be applied to get from a to b. */
  function Dist(a: Seq, b: Seq): (d: int)
    ensures 0 <= d < 65536
    ensures d == 0 <==> a == b
  {
    if a <= b then b - a else b - a + 65536
  }

  /** The half-open range of sequence numbers that add_packet hands back. */
  datatype Range = Range(start: Seq, end: Seq) {
    predicate IsEmpty() {
      !Less(start, end)
    }
  }

  /** The numbers an iterator over a range visits: it stops once its front is no longer
      before the end. */
  function SeqIter(start: Seq, end: Seq): seq<Seq>
    decreases Dist(start, end)
  {
    if Less(start, end) then [start] + SeqIter(Next(start), end) else []
  }

  /** All these numbers lie in the half circle that starts at base. */
  predicate WithinHalf(base: Seq, numbers: set<Seq>) {
    forall s :: s in numbers ==> Dist(base, s) < 32768
  }

  /** These numbers lie in some half circle. */
  ghost predicate InHalfCircle(numbers: set<Seq>) {
    exists base: Seq :: WithinHalf(base, numbers)
  }

  /** The sequence number that packet index i travels under. */
  function Wrap(i: int): Seq {
    i % 65536
  }

  /** The images of n consecutive indices, from i on. */
  function CountUp(i: int, n: nat): (ss: seq<Seq>)
    ensures |ss| == n
    ensures forall t :: 0 <= t < n ==> ss[t] == Wrap(i + t)
  {
    seq<Seq>(n, t => Wrap(i + t))
  }

  lemma DistInjective(a: Seq, s: Seq, t: Seq)
    requires Dist(a, s) == Dist(a, t)
    ensures s == t
  {
  }

  lemma WrapNext(i: int)
    ensures Wrap(i + 1) == Next(Wrap(i))
  {
  }

  /** Circular distance recovers the difference of two indices less than one lap apart. */
  lemma WrapDist(i: int, j: int)
    requires 0 <= j - i < 65536
    ensures Dist(Wrap(i), Wrap(j)) == j - i
  {
  }

  /** Serial order is the order of the indices whenever they are less than half a lap apart. */
  lemma LessIsIndexOrder(i: int, j: int)
    requires -32768 < j - i < 32768
    ensures Less(Wrap(i), Wrap(j)) <==> i < j
  {
    if i <= j {
      WrapDist(i, j);
    } else {
      WrapDist(j, i);
    }
  }

  lemma LapsVanish(x: int, laps: int)
    ensures Wrap(x + 65536 * laps) == Wrap(x)
  {
  }

  /** Counting on from index i by its distance to s arrives at an index of number s. */
  lemma CountingOn(i: int, s: Seq)
    ensures Wrap(i + Dist(Wrap(i), s)) == s
  {
    var laps := i / 65536;
    assert i == Wrap(i) + 65536 * laps;
    if Wrap(i) <= s {
      LapsVanish(s, laps);
    } else {
      LapsVanish(s, laps + 1);
    }
  }

  /** Counting back from index i by its distance from a arrives at an index of number a. */
  lemma CountingBack(a: Seq, i: int, t: int)
    ensures Wrap(i - Dist(a, Wrap(i)) + t) == Wrap(a + t)
  {
    var laps := i / 65536;
    assert i == Wrap(i) + 65536 * laps;
    if a <= Wrap(i) {
      LapsVanish(a + t, laps);
    } else {
      LapsVanish(a + t, laps - 1);
    }
  }

  /** The image of an index range, visited by the iterator, is the whole range in order. */
  lemma {:induction false} SeqIterIsIndexRange(i: int, j: int)
    requires -32768 < j - i < 32768
    ensures SeqIter(Wrap(i), Wrap(j)) == CountUp(i, if i < j then j - i else 0)
    decreases if i < j then j - i else 0
  {
    LessIsIndexOrder(i, j);
    if i < j {
      WrapNext(i);
      SeqIterIsIndexRange(i + 1, j);
    }
  }

  lemma CountUpFromNext(s: Seq, n: nat)
    ensures CountUp(Next(s), n) == CountUp(s + 1, n)
  {
    var shifted, plain := CountUp(Next(s), n), CountUp(s + 1, n);
    forall t | 0 <= t < n
      ensures shifted[t] == plain[t]
    {
      assert Wrap(Next(s) + t) == Wrap(s + 1 + t);
    }
  }

  /** An iterator counts up from its start, for less than half a circle, whatever its range. */
  lemma {:induction false} SeqIterCountsUp(start: Seq, end: Seq)
    ensures |SeqIter(start, end)| == if Less(start, end) then Dist(start, end) else 0
    ensures SeqIter(start, end) == CountUp(start, |SeqIter(start, end)|)
    decreases Dist(start, end)
  {
    if Less(start, end) {
      var rest := SeqIter(Next(start), end);
      SeqIterCountsUp(Next(start), end);
      CountUpFromNext(start, |rest|);
      assert CountUp(start, 1 + |rest|) == [start] + CountUp(start + 1, |rest|);
    }
  }
}
