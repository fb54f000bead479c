/** The packets are kept in an ordered map whose comparison is not transitive. This module models
    such a map as a row of entries that is only ever searched by comparing keys, and proves that in
    every run within the reader's window it behaves as the plain map does. */
module OrderedMaps {
  import opened SeqNumbers
  import opened Basics
  import opened FrameBuffers
  import opened PlayoutRuns

  datatype Entry<V> = Entry(key: Seq, value: V)

  type Table<V> = seq<Entry<V>>

  datatype Probe = Found(at: nat) | Missing(at: nat)

  /** Which entry of a stretch to compare with next: the n-th search of a run asks for the stretch
      from lo to hi. A search tree of any shape is such a choice. */
  type Picks = (nat, nat, nat) -> nat

  /** The keys of a stretch one after the other, as within a single tree node. */
  function FromTheLeft(): Picks {
    (n, lo, hi) => lo
  }

  function Choice(n: nat, lo: nat, hi: nat, picks: Picks): (m: nat)
    requires lo < hi
    ensures lo <= m < hi
  {
    var pick := picks(n, lo, hi);
    if lo <= pick < hi then pick else lo
  }

  function Search<V>(t: Table<V>, k: Seq, lo: nat, hi: nat, n: nat, picks: Picks): (p: Probe)
    requires lo <= hi <= |t|
    ensures p.Found? ==> lo <= p.at < hi && t[p.at].key == k
    ensures p.Missing? ==> lo <= p.at <= hi
    decreases hi - lo
  {
    if lo == hi then Missing(lo)
    else
      var m := Choice(n, lo, hi, picks);
      if k == t[m].key then Found(m)
      else if Less(k, t[m].key) then Search(t, k, lo, m, n, picks)
      else Search(t, k, m + 1, hi, n, picks)
  }

  function Lookup<V>(t: Table<V>, k: Seq, n: nat, picks: Picks): (p: Probe)
    ensures p.Found? ==> p.at < |t| && t[p.at].key == k
    ensures p.Missing? ==> p.at <= |t|
  {
    Search(t, k, 0, |t|, n, picks)
  }

  function Inserted<V>(t: Table<V>, at: nat, e: Entry<V>): (after: Table<V>)
    requires at <= |t|
    ensures |after| == |t| + 1
    ensures forall i :: 0 <= i <= |t| ==> after[i] == if i < at then t[i] else if i == at then e else t[i - 1]
  {
    t[..at] + [e] + t[at..]
  }

  function Insert<V>(t: Table<V>, k: Seq, v: V, n: nat, picks: Picks): Table<V> {
    match Lookup(t, k, n, picks)
    case Found(at) => t[at := Entry(k, v)]
    case Missing(at) => Inserted(t, at, Entry(k, v))
  }

  function Remove<V>(t: Table<V>, k: Seq, n: nat, picks: Picks): (Table<V>, Option<V>) {
    match Lookup(t, k, n, picks)
    case Found(at) => (t[..at] + t[at + 1..], Some(t[at].value))
    case Missing(_) => (t, None)
  }

  // ---------------------------------------------------------------------------------
  // When a table can be searched
  // ---------------------------------------------------------------------------------

  /** Every key is before every later one. */
  ghost predicate Sorted<V>(t: Table<V>) {
    forall i, j :: 0 <= i < j < |t| ==> Less(t[i].key, t[j].key)
  }

  /** Every search for a stored key ends at its entry. */
  ghost predicate FindsAll<V>(t: Table<V>) {
    forall picks: Picks, n: nat, i: nat :: i < |t| ==> Lookup(t, t[i].key, n, picks) == Found(i)
  }

  lemma {:induction false} SearchFinds<V>(t: Table<V>, i: nat, lo: nat, hi: nat, n: nat, picks: Picks)
    requires Sorted(t) && lo <= i < hi <= |t|
    ensures Search(t, t[i].key, lo, hi, n, picks) == Found(i)
    decreases hi - lo
  {
    var m := Choice(n, lo, hi, picks);
    if i < m {
      assert Less(t[i].key, t[m].key);
      SearchFinds(t, i, lo, m, n, picks);
    } else if m < i {
      assert Less(t[m].key, t[i].key);
      SearchFinds(t, i, m + 1, hi, n, picks);
    }
  }

  /** A comparison that goes the wrong way hides the earlier of two entries. */
  lemma WrongOrderHides<V>(t: Table<V>, i: nat, j: nat, n: nat)
    requires i < j < |t| && !Less(t[i].key, t[j].key)
    ensures Lookup(t, t[i].key, n, (n, lo, hi) => j) != Found(i)
  {
  }

  /** Searches find everything, whichever comparisons they make, exactly when the table is sorted by
      a comparison that need not be transitive. */
  lemma SearchableIsSorted<V>(t: Table<V>)
    ensures FindsAll(t) <==> Sorted(t)
  {
    if Sorted(t) {
      forall picks: Picks, n: nat, i: nat | i < |t|
        ensures Lookup(t, t[i].key, n, picks) == Found(i)
      {
        SearchFinds(t, i, 0, |t|, n, picks);
      }
    } else {
      var i: nat, j: nat :| i < j < |t| && !Less(t[i].key, t[j].key);
      WrongOrderHides(t, i, j, 0);
    }
  }

  // ---------------------------------------------------------------------------------
  // One operation
  // ---------------------------------------------------------------------------------

  /** All keys lie in the half circle from base on, in circular order. */
  ghost predicate InWindow<V>(t: Table<V>, base: Seq) {
    && (forall i :: 0 <= i < |t| ==> Dist(base, t[i].key) < 32768)
    && (forall i, j :: 0 <= i < j < |t| ==> Dist(base, t[i].key) < Dist(base, t[j].key))
  }

  function Keys<V>(t: Table<V>): set<Seq> {
    set i | 0 <= i < |t| :: t[i].key
  }

  ghost predicate HasKey<V>(t: Table<V>, k: Seq) {
    exists i :: 0 <= i < |t| && t[i].key == k
  }

  ghost predicate Represents<V>(t: Table<V>, m: map<Seq, V>) {
    && (forall i :: 0 <= i < |t| ==> t[i].key in m && m[t[i].key] == t[i].value)
    && (forall k :: k in m ==> HasKey(t, k))
  }

  /** On a half circle serial order is distance from its base, hence total and transitive. */
  lemma LessInWindow(base: Seq, a: Seq, b: Seq)
    requires Dist(base, a) < 32768 && Dist(base, b) < 32768
    ensures Less(a, b) <==> Dist(base, a) < Dist(base, b)
    ensures a == b <==> Dist(base, a) == Dist(base, b)
  {
  }

  /** For keys of one half circle, sorted means in circular order. */
  lemma SortedInWindow<V>(t: Table<V>, base: Seq)
    requires forall i :: 0 <= i < |t| ==> Dist(base, t[i].key) < 32768
    ensures Sorted(t) <==> InWindow(t, base)
  {
    forall i, j | 0 <= i < j < |t|
      ensures Less(t[i].key, t[j].key) <==> Dist(base, t[i].key) < Dist(base, t[j].key)
    {
      LessInWindow(base, t[i].key, t[j].key);
    }
  }

  /** A sorted table lies in the half circle that starts at its first key. */
  lemma SortedIsAWindow<V>(t: Table<V>)
    requires Sorted(t) && t != []
    ensures InWindow(t, t[0].key)
  {
    forall i | 0 <= i < |t|
      ensures Dist(t[0].key, t[i].key) < 32768
    {
      assert i > 0 ==> Less(t[0].key, t[i].key);
    }
    SortedInWindow(t, t[0].key);
  }

  lemma RepresentedKeys<V>(t: Table<V>, m: map<Seq, V>)
    requires Represents(t, m)
    ensures Keys(t) == m.Keys
  {
    forall k | k in m.Keys
      ensures k in Keys(t)
    {
      var i :| 0 <= i < |t| && t[i].key == k;
      assert t[i].key in Keys(t);
    }
  }

  /** Entry i is smaller than k if it is before lo, and greater if it is at hi or after it. */
  predicate OnItsSide<V>(t: Table<V>, base: Seq, k: Seq, i: nat, lo: nat, hi: nat)
    requires i < |t|
  {
    && (i < lo ==> Dist(base, t[i].key) < Dist(base, k))
    && (hi <= i ==> Dist(base, k) < Dist(base, t[i].key))
  }

  lemma ComparisonNarrows<V>(t: Table<V>, base: Seq, k: Seq, i: nat, lo: nat, hi: nat, m: nat)
    requires InWindow(t, base) && Dist(base, k) < 32768 && lo <= m < hi <= |t| && i < |t|
    requires OnItsSide(t, base, k, i, lo, hi) && k != t[m].key
    ensures Less(k, t[m].key) ==> OnItsSide(t, base, k, i, lo, m)
    ensures !Less(k, t[m].key) ==> OnItsSide(t, base, k, i, m + 1, hi)
  {
    LessInWindow(base, k, t[m].key);
  }

  lemma {:induction false} SearchSeparates<V>(
      t: Table<V>, base: Seq, k: Seq, i: nat, lo: nat, hi: nat, n: nat, picks: Picks)
    requires InWindow(t, base) && Dist(base, k) < 32768 && lo <= hi <= |t| && i < |t|
    requires OnItsSide(t, base, k, i, lo, hi)
    ensures var p := Search(t, k, lo, hi, n, picks);
            p.Missing? ==> OnItsSide(t, base, k, i, p.at, p.at)
    decreases hi - lo
  {
    if lo < hi {
      var m := Choice(n, lo, hi, picks);
      if k != t[m].key {
        ComparisonNarrows(t, base, k, i, lo, hi, m);
        if Less(k, t[m].key) {
          SearchSeparates(t, base, k, i, lo, m, n, picks);
        } else {
          SearchSeparates(t, base, k, i, m + 1, hi, n, picks);
        }
      }
    }
  }

  /** A search of a sorted table finds a key if and only if it is there. */
  lemma LookupIsExact<V>(t: Table<V>, m: map<Seq, V>, k: Seq, n: nat, picks: Picks)
    requires Sorted(t) && Represents(t, m)
    ensures Lookup(t, k, n, picks).Found? <==> k in m
  {
    if k in m {
      var i :| 0 <= i < |t| && t[i].key == k;
      SearchFinds(t, i, 0, |t|, n, picks);
    }
  }

  lemma ReplaceAgrees<V>(t: Table<V>, m: map<Seq, V>, at: nat, v: V)
    requires Sorted(t) && Represents(t, m) && at < |t|
    ensures Sorted(t[at := Entry(t[at].key, v)])
    ensures Represents(t[at := Entry(t[at].key, v)], m[t[at].key := v])
  {
    var k := t[at].key;
    var after := t[at := Entry(k, v)];
    assert forall i :: 0 <= i < |t| ==> after[i].key == t[i].key;
    forall j: Seq | HasKey(t, j)
      ensures HasKey(after, j)
    {
      var i :| 0 <= i < |t| && t[i].key == j;
      assert after[i].key == j;
    }
    assert after[at].key == k;
    forall i | 0 <= i < |t| && i != at
      ensures t[i].key != k
    {
      assert Less(t[i].key, k) || Less(k, t[i].key);
    }
  }

  /** Any two entries of the row after an insertion. */
  lemma InsertedInOrder<V>(t: Table<V>, base: Seq, at: nat, e: Entry<V>, i: nat, j: nat)
    requires InWindow(t, base) && at <= |t| && i < j <= |t|
    requires forall i :: 0 <= i < |t| ==> OnItsSide(t, base, e.key, i, at, at)
    ensures Dist(base, Inserted(t, at, e)[i].key) < Dist(base, Inserted(t, at, e)[j].key)
  {
    if i == at {
      assert OnItsSide(t, base, e.key, j - 1, at, at);
    } else if j == at {
      assert OnItsSide(t, base, e.key, i, at, at);
    }
  }

  lemma InsertAtKeepsWindow<V>(t: Table<V>, base: Seq, at: nat, e: Entry<V>)
    requires InWindow(t, base) && at <= |t| && Dist(base, e.key) < 32768
    requires forall i :: 0 <= i < |t| ==> OnItsSide(t, base, e.key, i, at, at)
    ensures InWindow(Inserted(t, at, e), base)
  {
    var after := Inserted(t, at, e);
    forall i, j | 0 <= i < j < |after|
      ensures Dist(base, after[i].key) < Dist(base, after[j].key)
    {
      InsertedInOrder(t, base, at, e, i, j);
    }
  }

  lemma InsertAtRepresents<V>(t: Table<V>, m: map<Seq, V>, at: nat, e: Entry<V>)
    requires Represents(t, m) && at <= |t| && !HasKey(t, e.key)
    ensures Represents(Inserted(t, at, e), m[e.key := e.value])
  {
    var after := Inserted(t, at, e);
    forall i | 0 <= i < |after|
      ensures after[i] == e || (after[i].key != e.key && after[i].key in m && m[after[i].key] == after[i].value)
    {
      if i != at {
        var j := if i < at then i else i - 1;
        assert after[i] == t[j];
      }
    }
    forall j: Seq | HasKey(t, j)
      ensures HasKey(after, j)
    {
      var i :| 0 <= i < |t| && t[i].key == j;
      assert after[if i < at then i else i + 1].key == j;
    }
    assert after[at] == e;
  }

  lemma MissingIsAbsent<V>(t: Table<V>, k: Seq, n: nat, picks: Picks)
    requires Sorted(t) && Lookup(t, k, n, picks).Missing?
    ensures !HasKey(t, k)
  {
    if HasKey(t, k) {
      var i :| 0 <= i < |t| && t[i].key == k;
      SearchFinds(t, i, 0, |t|, n, picks);
    }
  }

  lemma HalfCircleCovers<V>(t: Table<V>, base: Seq, k: Seq)
    requires Sorted(t) && WithinHalf(base, Keys(t) + {k})
    ensures InWindow(t, base) && Dist(base, k) < 32768
  {
    forall i | 0 <= i < |t|
      ensures Dist(base, t[i].key) < 32768
    {
      assert t[i].key in Keys(t) + {k};
    }
    assert k in Keys(t) + {k};
    SortedInWindow(t, base);
  }

  /** Where a new key goes in a sorted table whose keys share a half circle with it. */
  lemma InsertAtStaysSorted<V>(t: Table<V>, e: Entry<V>, n: nat, picks: Picks)
    requires Sorted(t) && InHalfCircle(Keys(t) + {e.key})
    requires Lookup(t, e.key, n, picks).Missing?
    ensures var at := Lookup(t, e.key, n, picks).at;
            Sorted(Inserted(t, at, e))
  {
    var base: Seq :| WithinHalf(base, Keys(t) + {e.key});
    var at := Lookup(t, e.key, n, picks).at;
    HalfCircleCovers(t, base, e.key);
    forall i | 0 <= i < |t|
      ensures OnItsSide(t, base, e.key, i, at, at)
    {
      SearchSeparates(t, base, e.key, i, 0, |t|, n, picks);
    }
    InsertAtKeepsWindow(t, base, at, e);
    SortedInWindow(Inserted(t, at, e), base);
  }

  lemma InsertAgrees<V>(t: Table<V>, m: map<Seq, V>, k: Seq, v: V, n: nat, picks: Picks)
    requires Sorted(t) && Represents(t, m) && InHalfCircle(m.Keys + {k})
    ensures Sorted(Insert(t, k, v, n, picks))
    ensures Represents(Insert(t, k, v, n, picks), m[k := v])
  {
    RepresentedKeys(t, m);
    match Lookup(t, k, n, picks)
    case Found(at) => ReplaceAgrees(t, m, at, v);
    case Missing(at) =>
      InsertAtStaysSorted(t, Entry(k, v), n, picks);
      MissingIsAbsent(t, k, n, picks);
      InsertAtRepresents(t, m, at, Entry(k, v));
  }

  lemma InsertedKeys<V>(t: Table<V>, k: Seq, v: V, n: nat, picks: Picks)
    ensures Keys(Insert(t, k, v, n, picks)) == Keys(t) + {k}
  {
    var after := Insert(t, k, v, n, picks);
    match Lookup(t, k, n, picks)
    case Found(at) =>
      forall i | 0 <= i < |t|
        ensures t[i].key == after[i].key && after[i].key in Keys(after)
      {
      }
      assert t[at].key in Keys(t);
    case Missing(at) =>
      forall i | 0 <= i < |t|
        ensures t[i].key in Keys(after)
      {
        assert after[if i < at then i else i + 1].key in Keys(after);
      }
      assert after[at].key in Keys(after);
  }

  /** Exactly when an insertion keeps everything findable: the new key and all stored ones lie in one
      half circle. */
  lemma InsertKeepsOrderExactlyWhen<V>(t: Table<V>, k: Seq, v: V, n: nat, picks: Picks)
    requires Sorted(t)
    ensures Sorted(Insert(t, k, v, n, picks)) <==> InHalfCircle(Keys(t) + {k})
  {
    var after := Insert(t, k, v, n, picks);
    InsertedKeys(t, k, v, n, picks);
    if Sorted(after) {
      SortedIsAWindow(after);
      assert WithinHalf(after[0].key, Keys(t) + {k});
    }
    if InHalfCircle(Keys(t) + {k}) {
      match Lookup(t, k, n, picks)
      case Found(at) => assert forall i :: 0 <= i < |t| ==> after[i].key == t[i].key;
      case Missing(at) => InsertAtStaysSorted(t, Entry(k, v), n, picks);
    }
  }

  lemma RemoveAtStaysSorted<V>(t: Table<V>, at: nat)
    requires Sorted(t) && at < |t|
    ensures Sorted(t[..at] + t[at + 1..])
    ensures forall i :: 0 <= i < |t| && i != at ==> t[i].key != t[at].key
  {
    var after := t[..at] + t[at + 1..];
    forall i, j | 0 <= i < j < |after|
      ensures Less(after[i].key, after[j].key)
    {
      assert after[i] == t[if i < at then i else i + 1];
      assert after[j] == t[if j < at then j else j + 1];
    }
    forall i | 0 <= i < |t| && i != at
      ensures t[i].key != t[at].key
    {
      assert Less(t[i].key, t[at].key) || Less(t[at].key, t[i].key);
    }
  }

  lemma RemoveAtRepresents<V>(t: Table<V>, m: map<Seq, V>, at: nat)
    requires Represents(t, m) && at < |t|
    requires forall i :: 0 <= i < |t| && i != at ==> t[i].key != t[at].key
    ensures Represents(t[..at] + t[at + 1..], m - {t[at].key})
  {
    var after := t[..at] + t[at + 1..];
    forall i | 0 <= i < |after|
      ensures after[i].key in m - {t[at].key} && m[after[i].key] == after[i].value
    {
      assert after[i] == t[if i < at then i else i + 1];
    }
    forall j: Seq | HasKey(t, j) && j != t[at].key
      ensures HasKey(after, j)
    {
      var i :| 0 <= i < |t| && t[i].key == j;
      assert after[if i < at then i else i - 1].key == j;
    }
  }

  lemma RemoveAgrees<V>(t: Table<V>, m: map<Seq, V>, k: Seq, n: nat, picks: Picks)
    requires Sorted(t) && Represents(t, m)
    ensures Sorted(Remove(t, k, n, picks).0)
    ensures Represents(Remove(t, k, n, picks).0, m - {k})
    ensures Remove(t, k, n, picks).1 == if k in m then Some(m[k]) else None
  {
    LookupIsExact(t, m, k, n, picks);
    match Lookup(t, k, n, picks)
    case Missing(_) => assert m - {k} == m;
    case Found(at) =>
      RemoveAtStaysSorted(t, at);
      RemoveAtRepresents(t, m, at);
  }

  // ---------------------------------------------------------------------------------
  // Whole runs
  // ---------------------------------------------------------------------------------

  /** The frame buffer over an ordered map, with the number of searches so far. */
  datatype Ordered<S> = Ordered(table: Table<seq<S>>, read: Seq, write: Seq, searches: nat)

  datatype OrderedPlayout<S> =
    OrderedPlayout(buffer: Ordered<S>, current: Option<seq<S>>, phase: Phase, out: seq<Emission<S>>)

  /** One turn of the flush loop. */
  function FlushTurn<S>(o: Ordered<S>, picks: Picks): Ordered<S> {
    Ordered(Remove(o.table, o.read, o.searches, picks).0, Next(o.read), o.write, o.searches + 1)
  }

  /** The flush loop. */
  function Walk<S>(o: Ordered<S>, s: Seq, picks: Picks): Ordered<S>
    decreases Dist(o.read, s)
  {
    if o.read == s then o else Walk(FlushTurn(o, picks), s, picks)
  }

  function OrderedPop<S>(o: Ordered<S>, picks: Picks): (Ordered<S>, Option<seq<S>>) {
    var (table, packet) := Remove(o.table, o.read, o.searches, picks);
    (Ordered(table, if packet.Some? then Next(o.read) else o.read, o.write, o.searches + 1), packet)
  }

  function OrderedStep<S>(p: OrderedPlayout<S>, e: Event<S>, picks: Picks): OrderedPlayout<S> {
    var o := p.buffer;
    match e
    case Arrive(i, packet) =>
      p.(buffer := Ordered(Insert(o.table, Wrap(i), packet, o.searches, picks), o.read, Wrap(i), o.searches + 1))
    case FlushTo(j) => p.(buffer := Walk(o, Wrap(j), picks))
    case Audio =>
      if p.phase == Locking then
        var (o', packet) := OrderedPop(o, picks);
        p.(buffer := o', current := packet, phase := Draining)
      else
        // the other two steps do not look at the buffer
        var q := AudioStep(Playout(Empty<S>(0), p.current, p.phase, p.out));
        OrderedPlayout(o, q.current, q.phase, q.out)
  }

  function OrderedExec<S>(r0: int, es: seq<Event<S>>, picks: Picks): OrderedPlayout<S> {
    if es == [] then OrderedPlayout(Ordered([], Wrap(r0), Wrap(r0), 0), None, Idle, [])
    else OrderedStep(OrderedExec(r0, es[..|es| - 1], picks), es[|es| - 1], picks)
  }

  lemma OrderedOneMore<S>(r0: int, es: seq<Event<S>>, e: Event<S>, picks: Picks)
    ensures OrderedExec(r0, es + [e], picks) == OrderedStep(OrderedExec(r0, es, picks), e, picks)
  {
    assert (es + [e])[..|es + [e]| - 1] == es;
  }

  ghost predicate SameBuffer<S>(o: Ordered<S>, b: Buffer<S>) {
    o.read == b.read && o.write == b.write && Sorted(o.table) && Represents(o.table, b.data)
  }

  lemma FlushTurnAgrees<S>(o: Ordered<S>, b: Buffer<S>, picks: Picks)
    requires SameBuffer(o, b)
    ensures SameBuffer(FlushTurn(o, picks), Flushed(b, Next(b.read)))
  {
    RemoveAgrees(o.table, b.data, o.read, o.searches, picks);
    FlushByOne(b);
  }

  lemma {:induction false} WalkAgrees<S>(o: Ordered<S>, b: Buffer<S>, s: Seq, picks: Picks)
    requires SameBuffer(o, b)
    ensures SameBuffer(Walk(o, s, picks), Flushed(b, s))
    decreases Dist(o.read, s)
  {
    if o.read == s {
      assert Flushed(b, s).data == b.data;
    } else {
      FlushTurnAgrees(o, b, picks);
      FlushComposes(b, Next(b.read), s);
      WalkAgrees(FlushTurn(o, picks), Flushed(b, Next(b.read)), s, picks);
    }
  }

  lemma PopAgrees<S>(o: Ordered<S>, b: Buffer<S>, picks: Picks)
    requires SameBuffer(o, b)
    ensures SameBuffer(OrderedPop(o, picks).0, Popped(b))
    ensures OrderedPop(o, picks).1 == Front(b)
  {
    RemoveAgrees(o.table, b.data, o.read, o.searches, picks);
    if b.read !in b.data {
      assert b.data - {b.read} == b.data;
    }
  }

  ghost predicate SamePlay<S>(o: OrderedPlayout<S>, p: Playout<S>) {
    SameBuffer(o.buffer, p.buffer) && o.current == p.current && o.phase == p.phase && o.out == p.out
  }

  lemma ArrivalAgrees<S>(o: OrderedPlayout<S>, run: Run<S>, i: int, packet: seq<S>, picks: Picks)
    requires SamePlay(o, run.play) && Allowed(OneHalfCircle, run, Arrive(i, packet))
    ensures SamePlay(OrderedStep(o, Arrive(i, packet), picks), Step(run, Arrive(i, packet)).play)
  {
    InsertAgrees(o.buffer.table, run.play.buffer.data, Wrap(i), packet, o.buffer.searches, picks);
  }

  lemma FlushAgrees<S>(o: OrderedPlayout<S>, run: Run<S>, j: int, picks: Picks)
    requires SamePlay(o, run.play)
    ensures SamePlay(OrderedStep(o, FlushTo(j), picks), Step(run, FlushTo(j)).play)
  {
    WalkAgrees(o.buffer, run.play.buffer, Wrap(j), picks);
  }

  /** Only the locked step looks at the buffer. */
  lemma OtherStepsIgnoreTheBuffer<S>(p: Playout<S>, b: Buffer<S>)
    requires p.phase != Locking
    ensures AudioStep(p.(buffer := b)) == AudioStep(p).(buffer := b)
    ensures AudioStep(p).buffer == p.buffer
  {
  }

  lemma AudioAgrees<S>(o: OrderedPlayout<S>, p: Playout<S>, picks: Picks)
    requires SamePlay(o, p)
    ensures SamePlay(OrderedStep(o, Audio, picks), AudioStep(p))
  {
    if p.phase == Locking {
      PopAgrees(o.buffer, p.buffer, picks);
    } else {
      OtherStepsIgnoreTheBuffer(p, Empty<S>(0));
    }
  }

  /** However the ordered map picks its comparisons: in every run in which each arriving number lies
      in one half circle with the numbers stored at that moment, before the read marker or after it,
      the program over the ordered map goes through the same states, and plays the same samples, as
      the program over a plain map. */
  lemma {:induction false} OrderedMapIsAMap<S>(r0: int, es: seq<Event<S>>, picks: Picks)
    requires Follows(OneHalfCircle, r0, es)
    ensures SamePlay(OrderedExec(r0, es, picks), Exec(r0, es).play)
  {
    if es != [] {
      var before, e := es[..|es| - 1], es[|es| - 1];
      OrderedMapIsAMap(r0, before, picks);
      match e
      case Arrive(i, packet) => ArrivalAgrees(OrderedExec(r0, before, picks), Exec(r0, before), i, packet, picks);
      case FlushTo(j) => FlushAgrees(OrderedExec(r0, before, picks), Exec(r0, before), j, picks);
      case Audio => AudioAgrees(OrderedExec(r0, before, picks), Exec(r0, before).play, picks);
    }
  }

  /** So it is in every run within the reader's window. */
  lemma InTheWindowOrderedIsAMap<S>(r0: int, es: seq<Event<S>>, picks: Picks)
    requires Follows(AheadOfReader, r0, es)
    ensures SamePlay(OrderedExec(r0, es, picks), Exec(r0, es).play)
  {
    WindowIsOneHalfCircle(r0, es);
    OrderedMapIsAMap(r0, es, picks);
  }

  /** At every moment of the run every stored key could be found. */
  ghost predicate SearchableThroughout<S>(r0: int, es: seq<Event<S>>, picks: Picks) {
    && (es == [] || SearchableThroughout(r0, es[..|es| - 1], picks))
    && FindsAll(OrderedExec(r0, es, picks).buffer.table)
  }

  lemma InsertKeepsOrderOverMap<V>(t: Table<V>, m: map<Seq, V>, k: Seq, v: V, n: nat, picks: Picks)
    requires Sorted(t) && Represents(t, m)
    ensures Sorted(Insert(t, k, v, n, picks)) <==> InHalfCircle(m.Keys + {k})
  {
    RepresentedKeys(t, m);
    InsertKeepsOrderExactlyWhen(t, k, v, n, picks);
  }

  lemma ArrivalInserts<S>(o: OrderedPlayout<S>, i: int, packet: seq<S>, picks: Picks)
    ensures OrderedStep(o, Arrive(i, packet), picks).buffer.table ==
            Insert(o.buffer.table, Wrap(i), packet, o.buffer.searches, picks)
  {
  }

  lemma ArrivalKeepsOrderExactlyWhen<S>(o: OrderedPlayout<S>, run: Run<S>, i: int, packet: seq<S>, picks: Picks)
    requires SameBuffer(o.buffer, run.play.buffer)
    ensures Sorted(OrderedStep(o, Arrive(i, packet), picks).buffer.table) <==>
            Allowed(OneHalfCircle, run, Arrive(i, packet))
  {
    var table, keys := o.buffer.table, run.play.buffer.data.Keys + {Wrap(i)};
    assert Allowed(OneHalfCircle, run, Arrive(i, packet)) <==> InHalfCircle(keys);
    ArrivalInserts(o, i, packet, picks);
    InsertKeepsOrderOverMap(table, run.play.buffer.data, Wrap(i), packet, o.buffer.searches, picks);
  }

  /** The condition on arrivals is exact: whatever the comparisons, the map can be searched throughout
      a run if and only if each arriving number shared a half circle with those stored. */
  lemma {:induction false} SearchableExactlyWhen<S>(r0: int, es: seq<Event<S>>, picks: Picks)
    requires Follows(AnyArrival, r0, es)
    ensures SearchableThroughout(r0, es, picks) <==> Follows(OneHalfCircle, r0, es)
  {
    SearchableIsSorted(OrderedExec(r0, es, picks).buffer.table);
    if es != [] {
      var before, e := es[..|es| - 1], es[|es| - 1];
      SearchableExactlyWhen(r0, before, picks);
      if Follows(OneHalfCircle, r0, before) {
        OrderedMapIsAMap(r0, before, picks);
        if e.Arrive? {
          ArrivalKeepsOrderExactlyWhen(
            OrderedExec(r0, before, picks), Exec(r0, before), e.index, e.packet, picks);
        } else {
          OrderedMapIsAMap(r0, es, picks);
        }
      }
    }
  }

  /** The half circle is needed: three keys spread over more than that, searched from the left, hide
      the second one from a search. */
  lemma SpreadKeysGetLost()
    ensures var picks := FromTheLeft();
            var t := Insert(Insert(Insert([], 0, "a", 0, picks), 20000, "b", 1, picks), 40000, "c", 2, picks);
            t == [Entry(40000, "c"), Entry(0, "a"), Entry(20000, "b")] && Lookup(t, 20000, 3, picks).Missing?
  {
    var picks := FromTheLeft();
    var t1 := Insert([], 0, "a", 0, picks);
    assert t1 == [Entry(0, "a")];
    var t2 := Insert(t1, 20000, "b", 1, picks);
    assert t2 == [Entry(0, "a"), Entry(20000, "b")];
    var t3 := Insert(t2, 40000, "c", 2, picks);
    assert t3 == [Entry(40000, "c"), Entry(0, "a"), Entry(20000, "b")];
  }
}
