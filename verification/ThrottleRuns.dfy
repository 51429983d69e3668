/**
 Whole runs of shared buckets under any mix of flows: lock order is invisible, releases
 keep their order, and no bucket ever releases more than its burst plus its rate.
 */
module ThrottleRuns {
  import opened TokenBuckets
  import opened Throttles

  /** One operation on the shared buckets; a flow names its buckets in the order it locks them. */
  datatype Op<K> =
    | Shaping(ids: seq<K>, bytes: nat, now: real)
    | Policing(ids: seq<K>, bytes: nat, now: real)
    | FullTest(id: K, now: real)
    | Reload(id: K, bytes: nat, window: real, now: real)

  datatype Out = Waits(wait: real) | Forwards(ok: bool) | Full(full: bool) | Retuned

  function IdsOf<K>(op: Op<K>): seq<K> {
    if op.Shaping? || op.Policing? then op.ids else [op.id]
  }

  ghost predicate Legal<K>(w: World<K>, op: Op<K>) {
    Known(w, IdsOf(op)) && NoDup(IdsOf(op))
  }

  ghost predicate AllLegal<K>(w: World<K>, ops: seq<Op<K>>) {
    forall i :: 0 <= i < |ops| ==> Legal(w, ops[i])
  }

  ghost function Apply<K>(w: World<K>, op: Op<K>): (r: (Out, World<K>))
    requires Legal(w, op)
    ensures r.1.Keys == w.Keys
  {
    match op
    case Shaping(ids, bytes, now) =>
      var (wait, w') := ReserveAll(w, ids, bytes, now);
      (Waits(wait), w')
    case Policing(ids, bytes, now) =>
      var (ok, w') := PoliceInOrder(w, ids, bytes, now);
      (Forwards(ok), w')
    case FullTest(id, now) =>
      assert id in IdsOf(op);
      (Full(IsFull(w[id], now)), w[id := Refilled(w[id], now)])
    case Reload(id, bytes, window, now) =>
      assert id in IdsOf(op);
      (Retuned, w[id := TokenBuckets.Retuned(w[id], bytes, window, now)])
  }

  lemma StillLegal<K>(w: World<K>, w': World<K>, ops: seq<Op<K>>)
    requires ops != [] && AllLegal(w, ops) && w'.Keys == w.Keys
    ensures AllLegal(w', ops[1..])
  {
    forall i | 0 <= i < |ops| - 1 ensures Legal(w', ops[1..][i]) {
      assert Legal(w, ops[i + 1]);
    }
  }

  ghost function Outs<K>(w: World<K>, ops: seq<Op<K>>): seq<Out>
    requires AllLegal(w, ops)
    decreases ops
  {
    if ops == [] then []
    else
      var (out, w') := Apply(w, ops[0]);
      StillLegal(w, w', ops);
      [out] + Outs(w', ops[1..])
  }

  // ---------------------------------------------------------------------------
  // Lock order is invisible
  // ---------------------------------------------------------------------------

  /** The two buckets cannot be told apart by readings from `since` on. */
  ghost predicate Alike(b1: Bucket, b2: Bucket, since: real) {
    Sound(b1) && Sound(b2) && Refilled(b1, since) == Refilled(b2, since)
  }

  ghost predicate WorldsAlike<K>(w1: World<K>, w2: World<K>, since: real) {
    w1.Keys == w2.Keys && forall k :: k in w1 ==> Alike(w1[k], w2[k], since)
  }

  lemma AlikeLater(b1: Bucket, b2: Bucket, since: real, t: real)
    requires Alike(b1, b2, since) && since <= t
    ensures Alike(b1, b2, t)
  {
    RefillsCompose(b1, since, t);
    RefillsCompose(b2, since, t);
  }

  /** A bucket a short datagram stopped before is as good as one it had refilled. */
  lemma RefillUnseen(b1: Bucket, b2: Bucket, r1: Bucket, r2: Bucket, now: real)
    requires Alike(b1, b2, now)
    requires r1 == b1 || r1 == Refilled(b1, now)
    requires r2 == b2 || r2 == Refilled(b2, now)
    ensures Alike(r1, r2, now)
  {
    RefillsCompose(b1, now, now);
    RefillsCompose(b2, now, now);
    RefillIsSound(b1, now);
    RefillIsSound(b2, now);
  }

  ghost predicate SameIds<K>(a: seq<K>, b: seq<K>) {
    (forall k :: k in a ==> k in b) && (forall k :: k in b ==> k in a)
  }

  /** The same operation, up to the order in which it goes through its buckets. */
  ghost predicate Reordered<K>(op1: Op<K>, op2: Op<K>) {
    match op1
    case Shaping(ids, bytes, now) =>
      op2.Shaping? && op2.bytes == bytes && op2.now == now && SameIds(ids, op2.ids)
    case Policing(ids, bytes, now) =>
      op2.Policing? && op2.bytes == bytes && op2.now == now && SameIds(ids, op2.ids)
    case _ => op1 == op2
  }

  lemma ApplyAlike<K>(w1: World<K>, w2: World<K>, op1: Op<K>, op2: Op<K>, since: real)
    requires WorldsAlike(w1, w2, since) && since <= op1.now
    requires Legal(w1, op1) && Legal(w2, op2) && Reordered(op1, op2)
    ensures Apply(w1, op1).0 == Apply(w2, op2).0
    ensures WorldsAlike(Apply(w1, op1).1, Apply(w2, op2).1, op1.now)
  {
    var now := op1.now;
    forall k | k in w1 ensures Alike(w1[k], w2[k], now) {
      AlikeLater(w1[k], w2[k], since, now);
    }
    match op1
    case Shaping(ids, bytes, _) => ShapeAlike(w1, w2, op1, op2);
    case Policing(ids, bytes, _) => PoliceAlike(w1, w2, op1, op2);
    case FullTest(id, _) =>
      assert id in IdsOf(op1);
      RefillUnseen(w1[id], w2[id], Refilled(w1[id], now), Refilled(w2[id], now), now);
    case Reload(id, bytes, window, _) =>
      assert id in IdsOf(op1);
      RetuneGivesNoBurst(w1[id], bytes, window, now);
      RetuneGivesNoBurst(w2[id], bytes, window, now);
  }

  lemma ShapeAlike<K>(w1: World<K>, w2: World<K>, op1: Op<K>, op2: Op<K>)
    requires WorldsAlike(w1, w2, op1.now) && op1.Shaping?
    requires Legal(w1, op1) && Legal(w2, op2) && Reordered(op1, op2)
    ensures Apply(w1, op1).0 == Apply(w2, op2).0
    ensures WorldsAlike(Apply(w1, op1).1, Apply(w2, op2).1, op1.now)
  {
    ReserveAllEffect(w1, op1.ids, op1.bytes, op1.now);
    ReserveAllEffect(w2, op2.ids, op2.bytes, op1.now);
    var (wait1, r1) := ReserveAll(w1, op1.ids, op1.bytes, op1.now);
    var (wait2, r2) := ReserveAll(w2, op2.ids, op2.bytes, op1.now);
    forall k | k in op1.ids ensures r1[k] == r2[k] && Sound(r1[k]) {
      assert Alike(w1[k], w2[k], op1.now);
      RefillIsSound(w1[k], op1.now);
    }
    hide Refilled, Wait;
    assert wait1 == wait2;
    forall k | k in r1 ensures Alike(r1[k], r2[k], op1.now) {
      if k !in op1.ids {
        assert Alike(w1[k], w2[k], op1.now);
      }
    }
  }

  lemma PoliceAlike<K>(w1: World<K>, w2: World<K>, op1: Op<K>, op2: Op<K>)
    requires WorldsAlike(w1, w2, op1.now) && op1.Policing?
    requires Legal(w1, op1) && Legal(w2, op2) && Reordered(op1, op2)
    ensures Apply(w1, op1).0 == Apply(w2, op2).0
    ensures WorldsAlike(Apply(w1, op1).1, Apply(w2, op2).1, op1.now)
  {
    var now := op1.now;
    PoliceEffect(w1, op1.ids, op1.bytes, now);
    PoliceEffect(w2, op2.ids, op2.bytes, now);
    var (ok1, r1) := PoliceInOrder(w1, op1.ids, op1.bytes, now);
    var (ok2, r2) := PoliceInOrder(w2, op2.ids, op2.bytes, now);
    forall k | k in op1.ids ensures Has(w1[k], op1.bytes, now) == Has(w2[k], op1.bytes, now) {
      assert Alike(w1[k], w2[k], now);
    }
    assert ok1 == ok2;
    forall k | k in r1 ensures Alike(r1[k], r2[k], now) {
      assert Alike(w1[k], w2[k], now);
      if k in op1.ids && !ok1 {
        RefillUnseen(w1[k], w2[k], r1[k], r2[k], now);
      } else if k in op1.ids {
        RefillIsSound(w1[k], now);
      }
    }
  }

  ghost predicate Clockwise<K>(ops: seq<Op<K>>, since: real) {
    (forall i :: 0 <= i < |ops| ==> since <= ops[i].now) &&
    (forall i, j :: 0 <= i < j < |ops| ==> ops[i].now <= ops[j].now)
  }

  /**
   Running the same operations with their buckets locked in any other order gives the same
   waits and verdicts, for ever after, although a short bucket keeps later ones from being
   refilled.
   */
  lemma {:induction false} LockOrderIsInvisible<K>(
    w1: World<K>, w2: World<K>, ops1: seq<Op<K>>, ops2: seq<Op<K>>, since: real)
    requires WorldsAlike(w1, w2, since) && Clockwise(ops1, since)
    requires AllLegal(w1, ops1) && AllLegal(w2, ops2)
    requires |ops1| == |ops2| && forall i :: 0 <= i < |ops1| ==> Reordered(ops1[i], ops2[i])
    ensures Outs(w1, ops1) == Outs(w2, ops2)
    decreases ops1
  {
    if ops1 != [] {
      ApplyAlike(w1, w2, ops1[0], ops2[0], since);
      var r1, r2 := Apply(w1, ops1[0]).1, Apply(w2, ops2[0]).1;
      StillLegal(w1, r1, ops1);
      StillLegal(w2, r2, ops2);
      LockOrderIsInvisible(r1, r2, ops1[1..], ops2[1..], ops1[0].now);
    }
  }

  /** The readings the operations work with, in the order they take effect. */
  function Readings<K>(ops: seq<Op<K>>): (r: seq<real>)
    ensures |r| == |ops|
  {
    seq(|ops|, i requires 0 <= i < |ops| => ops[i].now)
  }

  ghost predicate NeverBack(readings: seq<real>) {
    forall i, j :: 0 <= i < j < |readings| ==> readings[i] <= readings[j]
  }

  /** The same operations on the same sound buckets, up to lock order. */
  ghost predicate Comparable<K>(w: World<K>, ops1: seq<Op<K>>, ops2: seq<Op<K>>) {
    && AllSound(w) && AllLegal(w, ops1) && AllLegal(w, ops2)
    && |ops1| == |ops2| && forall i :: 0 <= i < |ops1| ==> Reordered(ops1[i], ops2[i])
  }

  /** Nothing that works with these readings can tell in which order the buckets were locked. */
  ghost predicate OrderIsHidden(readings: seq<real>) {
    forall w: World<int>, ops1: seq<Op<int>>, ops2: seq<Op<int>> ::
      Comparable(w, ops1, ops2) && Readings(ops1) == readings ==> Outs(w, ops1) == Outs(w, ops2)
  }

  /** An operation that goes through no bucket. */
  function Idle(t: real): Op<int> {
    Shaping([], 0, t)
  }

  function Idles(ts: seq<real>): (r: seq<Op<int>>)
    ensures |r| == |ts|
  {
    seq(|ts|, i requires 0 <= i < |ts| => Idle(ts[i]))
  }

  lemma FirstOut<K>(w: World<K>, op: Op<K>, ops: seq<Op<K>>)
    requires Legal(w, op) && AllLegal(w, ops)
    ensures AllLegal(w, [op] + ops) && AllLegal(Apply(w, op).1, ops)
    ensures Outs(w, [op] + ops) == [Apply(w, op).0] + Outs(Apply(w, op).1, ops)
  {
    hide Apply, Legal;
    assert ([op] + ops)[1..] == ops;
    StillLegal(w, Apply(w, op).1, [op] + ops);
  }

  /** What tells two runs apart later still does so after idle operations. */
  lemma {:induction false} IdlesHideNothing(
    w1: World<int>, w2: World<int>, ts: seq<real>, ops1: seq<Op<int>>, ops2: seq<Op<int>>)
    requires AllLegal(w1, ops1) && AllLegal(w2, ops2) && Outs(w1, ops1) != Outs(w2, ops2)
    ensures AllLegal(w1, Idles(ts) + ops1) && AllLegal(w2, Idles(ts) + ops2)
    ensures Outs(w1, Idles(ts) + ops1) != Outs(w2, Idles(ts) + ops2)
    decreases |ts|
  {
    hide Apply, Outs, Legal;
    if ts == [] {
      assert Idles(ts) + ops1 == ops1 && Idles(ts) + ops2 == ops2;
    } else {
      IdlesHideNothing(w1, w2, ts[1..], ops1, ops2);
      IdleDoesNothing(w1, ts[0]);
      IdleDoesNothing(w2, ts[0]);
      var rest1, rest2 := Idles(ts[1..]) + ops1, Idles(ts[1..]) + ops2;
      OpHidesNothing(w1, w2, Idle(ts[0]), Idle(ts[0]), rest1, rest2);
      assert Idles(ts) == [Idle(ts[0])] + Idles(ts[1..]);
      hide Idles;
      assert Idles(ts) + ops1 == [Idle(ts[0])] + rest1 && Idles(ts) + ops2 == [Idle(ts[0])] + rest2;
    }
  }

  lemma IdleDoesNothing(w: World<int>, t: real)
    ensures Legal(w, Idle(t)) && Apply(w, Idle(t)).1 == w
  {
  }

  lemma OpHidesNothing<K>(
    w1: World<K>, w2: World<K>, op1: Op<K>, op2: Op<K>, ops1: seq<Op<K>>, ops2: seq<Op<K>>)
    requires Legal(w1, op1) && AllLegal(w1, ops1) && Legal(w2, op2) && AllLegal(w2, ops2)
    requires AllLegal(Apply(w1, op1).1, ops1) && AllLegal(Apply(w2, op2).1, ops2)
    requires Outs(Apply(w1, op1).1, ops1) != Outs(Apply(w2, op2).1, ops2)
    ensures AllLegal(w1, [op1] + ops1) && AllLegal(w2, [op2] + ops2)
    ensures Outs(w1, [op1] + ops1) != Outs(w2, [op2] + ops2)
  {
    hide Apply, Legal;
    FirstOut(w1, op1, ops1);
    FirstOut(w2, op2, ops2);
    assert Outs(w1, [op1] + ops1)[1..] == Outs(Apply(w1, op1).1, ops1);
    assert Outs(w2, [op2] + ops2)[1..] == Outs(Apply(w2, op2).1, ops2);
  }

  /** One bucket that a refill up to `t` brings to one token, and one that stays short. */
  function LateAndShort(t: real, stale: real): World<int>
    requires stale < t
  {
    var rate := 1.0 / (t - stale);
    map[0 := Bucket(10.0, rate, 0.0, stale), 1 := Bucket(10.0, rate, -9.0, stale)]
  }

  lemma RefilledToOne(t: real, stale: real)
    requires stale < t
    ensures var w, rate := LateAndShort(t, stale), 1.0 / (t - stale);
            && rate > 0.0
            && Refilled(w[0], t) == Bucket(10.0, rate, 1.0, t) && Has(w[0], 1, t) && !Has(w[1], 1, t)
            && Has(Bucket(10.0, rate, 1.0, t), 1, stale) && !Has(w[0], 1, stale)
  {
    var rate := 1.0 / (t - stale);
    assert (t - stale) * rate == 1.0;
    assert rate > 0.0;
  }

  lemma BothOrders(t: real, stale: real)
    requires stale < t
    ensures var w := LateAndShort(t, stale);
            && PoliceInOrder(w, [0, 1], 1, t).1[0] == Refilled(w[0], t)
            && PoliceInOrder(w, [1, 0], 1, t).1[0] == w[0]
  {
    var w := LateAndShort(t, stale);
    RefilledToOne(t, stale);
    hide LateAndShort, Has, Refilled;
    assert [0, 1][1..] == [1] && [1][1..] == [] && [1, 0][1..] == [0];
    StopsAtShort(w, [1, 0], 1, t);
    StopsAtShort(w[0 := Refilled(w[0], t)], [1], 1, t);
  }

  /** A short bucket in front is refilled and nothing behind it is touched. */
  lemma StopsAtShort<K>(w: World<K>, order: seq<K>, bytes: nat, now: real)
    requires order != [] && Known(w, order) && !Has(w[order[0]], bytes, now)
    ensures CheckAll(w, order, bytes, now) == (false, w[order[0] := Refilled(w[order[0]], now)])
  {
  }

  /** Two operations with idle ones before, between and after them. */
  function Around(before: seq<real>, p: Op<int>, between: seq<real>, q: Op<int>, after: seq<real>): seq<Op<int>> {
    Idles(before) + ([p] + (Idles(between) + ([q] + Idles(after))))
  }

  lemma AroundReadings(before: seq<real>, p: Op<int>, between: seq<real>, q: Op<int>, after: seq<real>)
    ensures Readings(Around(before, p, between, q, after)) == before + ([p.now] + (between + ([q.now] + after)))
  {
  }

  lemma AroundReordered(before: seq<real>, p1: Op<int>, p2: Op<int>, between: seq<real>, q: Op<int>, after: seq<real>)
    requires Reordered(p1, p2) && Reordered(q, q)
    ensures var ops1, ops2 := Around(before, p1, between, q, after), Around(before, p2, between, q, after);
            |ops1| == |ops2| && forall i :: 0 <= i < |ops1| ==> Reordered(ops1[i], ops2[i])
  {
    var ops1, ops2 := Around(before, p1, between, q, after), Around(before, p2, between, q, after);
    forall i | 0 <= i < |ops1| ensures Reordered(ops1[i], ops2[i]) {
      if i == |before| {
        assert ops1[i] == p1 && ops2[i] == p2;
      } else {
        assert ops1[i] == ops2[i];
        assert ops1[i] == q || ops1[i].Shaping?;
      }
    }
  }

  lemma OrdersDiffer(before: seq<real>, t: real, between: seq<real>, stale: real, after: seq<real>)
    requires stale < t
    ensures var w, q := LateAndShort(t, stale), Policing([0], 1, stale);
            var ops1 := Around(before, Policing([0, 1], 1, t), between, q, after);
            var ops2 := Around(before, Policing([1, 0], 1, t), between, q, after);
            AllSound(w) && AllLegal(w, ops1) && AllLegal(w, ops2) && Outs(w, ops1) != Outs(w, ops2)
  {
    var w := LateAndShort(t, stale);
    var p1, p2 := Policing([0, 1], 1, t), Policing([1, 0], 1, t);
    var last := [Policing([0], 1, stale)] + Idles(after);
    var mid := Idles(between) + last;
    RefilledToOne(t, stale);
    assert AllSound(w) && Legal(w, p1) && Legal(w, p2);
    BothOrders(t, stale);
    var r1, r2 := Apply(w, p1).1, Apply(w, p2).1;
    assert r1[0] == Refilled(w[0], t) && r2[0] == w[0] && r1.Keys == w.Keys && r2.Keys == w.Keys;
    hide Apply, LateAndShort, Has, Refilled, Idles, Legal;
    LastTellsApart(r1, r2, stale, after);
    IdlesHideNothing(r1, r2, between, last, last);
    SameKeysLegal(r1, w, mid);
    OpHidesNothing(w, w, p1, p2, mid, mid);
    IdlesHideNothing(w, w, before, [p1] + mid, [p2] + mid);
  }

  /**
   With any stale reading the order can show, also with whatever other readings before,
   between and after: the bucket locked first is refilled and the one behind the short bucket
   is not.
   */
  lemma StaleReadingsSeeTheOrder(readings: seq<real>, i: nat, j: nat)
    returns (w: World<int>, ops1: seq<Op<int>>, ops2: seq<Op<int>>)
    requires i < j < |readings| && readings[j] < readings[i]
    ensures Comparable(w, ops1, ops2) && Readings(ops1) == readings
    ensures Outs(w, ops1) != Outs(w, ops2)
  {
    var t, stale := readings[i], readings[j];
    var before, between, after := readings[..i], readings[i + 1..j], readings[j + 1..];
    var p1, p2, q := Policing([0, 1], 1, t), Policing([1, 0], 1, t), Policing([0], 1, stale);
    assert Reordered(p1, p2) && Reordered(q, q);
    assert readings == before + ([t] + (between + ([stale] + after)));
    w := LateAndShort(t, stale);
    ops1, ops2 := Around(before, p1, between, q, after), Around(before, p2, between, q, after);
    hide Around, LateAndShort, Reordered, Readings, Legal;
    OrdersDiffer(before, t, between, stale, after);
    AroundReadings(before, p1, between, q, after);
    AroundReordered(before, p1, p2, between, q, after);
  }

  lemma LastTellsApart(r1: World<int>, r2: World<int>, stale: real, later: seq<real>)
    requires 0 in r1 && 0 in r2 && Has(r1[0], 1, stale) != Has(r2[0], 1, stale)
    ensures var ops := [Policing([0], 1, stale)] + Idles(later);
            AllLegal(r1, ops) && AllLegal(r2, ops) && Outs(r1, ops) != Outs(r2, ops)
  {
    var op, idles := Policing([0], 1, stale), Idles(later);
    OneVerdict(r1, 0, 1, stale);
    OneVerdict(r2, 0, 1, stale);
    FirstOut(r1, op, idles);
    FirstOut(r2, op, idles);
    assert Outs(r1, [op] + idles)[0] != Outs(r2, [op] + idles)[0];
  }

  lemma SameKeysLegal<K>(w: World<K>, w': World<K>, ops: seq<Op<K>>)
    requires AllLegal(w, ops) && w'.Keys == w.Keys
    ensures AllLegal(w', ops)
  {
    forall i | 0 <= i < |ops| ensures Legal(w', ops[i]) {
      assert Legal(w, ops[i]);
    }
  }

  lemma HiddenInOrder<K>(w: World<K>, ops1: seq<Op<K>>, ops2: seq<Op<K>>)
    requires Comparable(w, ops1, ops2) && NeverBack(Readings(ops1))
    ensures Outs(w, ops1) == Outs(w, ops2)
  {
    var since := if ops1 == [] then 0.0 else ops1[0].now;
    forall i, j | 0 <= i < j < |ops1| ensures ops1[i].now <= ops1[j].now {
      assert Readings(ops1)[i] <= Readings(ops1)[j];
    }
    LockOrderIsInvisible(w, w, ops1, ops2, since);
  }

  /**
   Lock order is invisible exactly to readings that never go back: then for all buckets and all
   operations, and otherwise some buckets and operations tell two orders apart.
   */
  lemma OrderIsHiddenIff(readings: seq<real>)
    ensures OrderIsHidden(readings) <==> NeverBack(readings)
  {
    if NeverBack(readings) {
      forall w: World<int>, ops1: seq<Op<int>>, ops2: seq<Op<int>>
        | Comparable(w, ops1, ops2) && Readings(ops1) == readings
        ensures Outs(w, ops1) == Outs(w, ops2)
      {
        HiddenInOrder(w, ops1, ops2);
      }
    } else {
      var i: nat, j: nat :| i < j < |readings| && readings[j] < readings[i];
      var w, ops1, ops2 := StaleReadingsSeeTheOrder(readings, i, j);
    }
  }

  lemma OneVerdict(w: World<int>, id: int, bytes: nat, now: real)
    requires id in w
    ensures Legal(w, Policing([id], bytes, now))
    ensures Apply(w, Policing([id], bytes, now)).0 == Forwards(Has(w[id], bytes, now))
  {
    PoliceEffect(w, [id], bytes, now);
    assert id in [id];
  }

  // ---------------------------------------------------------------------------
  // Releases
  // ---------------------------------------------------------------------------

  /** The bytes an operation lets go, and when: a shaped flow after its wait, a datagram at once. */
  ghost function Granted<K>(w: World<K>, op: Op<K>): (nat, real)
    requires Legal(w, op)
  {
    match op
    case Shaping(_, bytes, now) => (bytes, now + Apply(w, op).0.wait)
    case Policing(_, bytes, now) => (if Apply(w, op).0.ok then bytes else 0, now)
    case _ => (0, op.now)
  }

  /** Bytes through bucket `k` that have been released by `at`. */
  ghost function ReleasedBy<K>(w: World<K>, ops: seq<Op<K>>, k: K, at: real): nat
    requires AllLegal(w, ops)
    decreases ops
  {
    if ops == [] then 0
    else
      var (bytes, release) := Granted(w, ops[0]);
      var w' := Apply(w, ops[0]).1;
      StillLegal(w, w', ops);
      (if k in IdsOf(ops[0]) && release <= at then bytes else 0) + ReleasedBy(w', ops[1..], k, at)
  }

  /** Bucket `k` keeps its rate, and the readings it sees lag its clock by at most `lag`. */
  ghost predicate Steady<K>(w: World<K>, ops: seq<Op<K>>, k: K, lag: real)
    requires AllLegal(w, ops) && k in w
    decreases ops
  {
    ops == [] ||
    (var w' := Apply(w, ops[0]).1;
     StillLegal(w, w', ops);
     && (k in IdsOf(ops[0]) ==> !ops[0].Reload? && w[k].last <= ops[0].now + lag)
     && Steady(w', ops[1..], k, lag))
  }

  /** What the bucket would hold at `at` if nothing more were charged and no cap applied. */
  function Level(b: Bucket, at: real): real {
    b.tokens + (at - b.last) * b.rate
  }

  lemma LevelAfterRefill(b: Bucket, now: real, at: real)
    requires Sound(b)
    ensures Level(Refilled(b, now), at) <= Level(b, at)
  {
    var r := Refilled(b, now);
    if now > b.last {
      Distribute(now - b.last, at - now, b.rate);
    }
  }

  lemma LevelWhenReady(b: Bucket, at: real)
    requires b.rate > 0.0 && b.last + Wait(b) <= at
    ensures Level(b, at) >= 0.0
  {
    Distribute(Wait(b), at - b.last - Wait(b), b.rate);
  }

  /** Charging a bucket lowers its level by the bytes, and a release means the level was there. */
  lemma ChargeLowersLevel(b: Bucket, bytes: nat, now: real, lag: real, at: real)
    requires Sound(b) && lag >= 0.0 && b.last <= now + lag
    ensures var b' := Reserved(b, bytes, now);
            && Sound(b')
            && bytes as real + Level(b', at + lag) <= Level(b, at + lag)
            && (now + Wait(b') <= at ==> Level(b', at + lag) >= 0.0)
  {
    var b' := Reserved(b, bytes, now);
    RefillIsSound(b, now);
    LevelAfterRefill(b, now, at + lag);
    if now + Wait(b') <= at {
      LevelWhenReady(b', at + lag);
    }
  }

  /** The effect of one operation on one of its buckets, in terms of levels. */
  lemma GrantLowersLevel<K>(w: World<K>, op: Op<K>, k: K, lag: real, at: real)
    requires Legal(w, op) && k in w && Sound(w[k]) && lag >= 0.0
    requires k in IdsOf(op) ==> !op.Reload? && w[k].last <= op.now + lag
    ensures var w' := Apply(w, op).1;
            var (bytes, release) := Granted(w, op);
            && Sound(w'[k])
            && Level(w'[k], at + lag) <= Level(w[k], at + lag)
            && (k in IdsOf(op) && release <= at && bytes > 0 ==>
                  Level(w'[k], at + lag) >= 0.0 && bytes as real + Level(w'[k], at + lag) <= Level(w[k], at + lag))
  {
    var b, now := w[k], op.now;
    RefillIsSound(b, now);
    LevelAfterRefill(b, now, at + lag);
    if k in IdsOf(op) && (op.Shaping? || op.Policing?) {
      ChargeLowersLevel(b, op.bytes, now, lag, at);
    }
    hide Level, Reserved, Refilled, Wait, Has;
    match op
    case Shaping(ids, bytes, _) => ReserveAllEffect(w, ids, bytes, now);
    case Policing(ids, bytes, _) =>
      PoliceEffect(w, ids, bytes, now);
      if k in ids && Apply(w, op).0.ok {
        NoWaitAfterPolicing(b, bytes, now);
      }
    case _ => assert op.id in IdsOf(op);
  }

  lemma NoWaitAfterPolicing(b: Bucket, bytes: nat, now: real)
    requires Has(b, bytes, now)
    ensures Wait(Reserved(b, bytes, now)) == 0.0
  {
  }

  /**
   The rate bound: what a bucket has let through by any instant is at most the tokens it
   started with plus its rate times the time since, plus what stale readings gain, for
   every mix of flows and whatever further buckets those flows wait for.
   */
  lemma {:induction false} ReleasesKeepTheRate<K>(w: World<K>, ops: seq<Op<K>>, k: K, lag: real, at: real)
    requires AllLegal(w, ops) && k in w && Sound(w[k]) && lag >= 0.0
    requires Steady(w, ops, k, lag)
    ensures ReleasedBy(w, ops, k, at) as real <= Max(0.0, Level(w[k], at + lag))
    decreases ops
  {
    if ops != [] {
      hide Level, Apply, Granted;
      var w' := Apply(w, ops[0]).1;
      StillLegal(w, w', ops);
      GrantLowersLevel(w, ops[0], k, lag, at);
      ReleasesKeepTheRate(w', ops[1..], k, lag, at);
    }
  }

  /** For a new bucket and punctual readings: never more than the burst plus the rate. */
  lemma BurstPlusRate<K>(w: World<K>, ops: seq<Op<K>>, k: K, at: real)
    requires AllLegal(w, ops) && k in w && Sound(w[k]) && w[k].tokens == w[k].capacity >= 0.0
    requires Steady(w, ops, k, 0.0) && at >= w[k].last
    ensures ReleasedBy(w, ops, k, at) as real <= w[k].capacity + (at - w[k].last) * w[k].rate
  {
    ReleasesKeepTheRate(w, ops, k, 0.0, at);
    assert Level(w[k], at + 0.0) == w[k].capacity + (at - w[k].last) * w[k].rate;
    Distribute(0.0, at - w[k].last, w[k].rate);
  }

  // The lag is real: stale readings do buy that much

  lemma FirstReleased<K>(w: World<K>, op: Op<K>, ops: seq<Op<K>>, k: K, at: real, lag: real)
    requires Legal(w, op) && AllLegal(w, ops) && k in w
    ensures AllLegal(w, [op] + ops) && AllLegal(Apply(w, op).1, ops)
    ensures var (bytes, release) := Granted(w, op);
            ReleasedBy(w, [op] + ops, k, at)
            == (if k in IdsOf(op) && release <= at then bytes else 0) + ReleasedBy(Apply(w, op).1, ops, k, at)
    ensures Steady(w, [op] + ops, k, lag) <==>
            (k in IdsOf(op) ==> !op.Reload? && w[k].last <= op.now + lag) && Steady(Apply(w, op).1, ops, k, lag)
  {
    hide Apply, Legal, Granted;
    assert ([op] + ops)[1..] == ops;
    StillLegal(w, Apply(w, op).1, [op] + ops);
  }

  function Single(b: Bucket): World<int> {
    map[0 := b]
  }

  lemma ShapeOne(b: Bucket, bytes: nat, now: real)
    ensures Legal(Single(b), Shaping([0], bytes, now))
    ensures Granted(Single(b), Shaping([0], bytes, now)) == (bytes, now + Wait(Reserved(b, bytes, now)))
    ensures Apply(Single(b), Shaping([0], bytes, now)).1 == Single(Reserved(b, bytes, now))
  {
    hide Reserved, Wait;
    assert 0 in [0] && [0][1..] == [];
    ReserveAllEffect(Single(b), [0], bytes, now);
  }

  lemma ProbeOne(b: Bucket, now: real)
    ensures Legal(Single(b), FullTest(0, now)) && Granted(Single(b), FullTest(0, now)).0 == 0
    ensures Apply(Single(b), FullTest(0, now)).1 == Single(Refilled(b, now))
  {
  }

  /** Charge, let somebody refill the bucket at a later reading, and charge again at the older one. */
  function LateCharge(capacity: nat, n: nat, start: real, lag: real): seq<Op<int>> {
    [Shaping([0], capacity + n, start)] + ([FullTest(0, start + lag)] + ([Shaping([0], n, start)] + []))
  }

  lemma WaitIs(capacity: real, rate: real, debt: real, last: real)
    requires rate > 0.0 && debt >= 0.0
    ensures Wait(Bucket(capacity, rate, -debt, last)) == debt / rate
  {
    if debt == 0.0 {
      assert 0.0 / rate == 0.0;
    }
  }

  lemma DividesInOrder(x: real, y: real, rate: real)
    requires x <= y && rate > 0.0
    ensures x / rate <= y / rate && x / rate * rate == x
  {
  }

  /** What becomes of a full bucket on the way. */
  lemma LateChargeBuckets(capacity: nat, rate: real, n: nat, start: real, lag: real)
    requires rate > 0.0 && lag >= 0.0 && lag * rate <= n as real
    ensures var b0 := Bucket(capacity as real, rate, capacity as real, start);
            var b1 := Reserved(b0, capacity + n, start);
            var b2 := Refilled(b1, start + lag);
            && b1 == Bucket(capacity as real, rate, -(n as real), start)
            && b2 == Bucket(capacity as real, rate, lag * rate - n as real, start + lag)
            && Reserved(b2, n, start) == Bucket(capacity as real, rate, -(2.0 * n as real - lag * rate), start + lag)
  {
    var b1 := Bucket(capacity as real, rate, -(n as real), start);
    assert Reserved(Bucket(capacity as real, rate, capacity as real, start), capacity + n, start) == b1;
    var gain := lag * rate;
    assert Accrued(b1, start + lag) == gain by {
      assert start + lag - start == lag;
      if lag == 0.0 {
        assert 0.0 * rate == 0.0;
      }
    }
    hide Accrued;
    assert Refilled(b1, start + lag) == Bucket(capacity as real, rate, gain - n as real, start + lag);
  }

  /**
   For every capacity, rate and lag: a run with readings that lag so much, and an instant by
   which the bucket has let through exactly the rate times the lag more than burst plus rate.
   */
  lemma LagIsAttained(capacity: nat, rate: real, start: real, lag: real)
    returns (ops: seq<Op<int>>, at: real)
    requires rate > 0.0 && lag >= 0.0
    ensures var w := Single(Bucket(capacity as real, rate, capacity as real, start));
            && AllLegal(w, ops) && Steady(w, ops, 0, lag) && at >= start
            && ReleasedBy(w, ops, 0, at) as real == capacity as real + (at - start) * rate + lag * rate
  {
    Distribute(0.0, lag, rate);
    var n: nat := (lag * rate).Floor + 1;
    hide ReleasedBy, Steady, LateCharge, AllLegal;
    ops := LateCharge(capacity, n, start, lag);
    at := LateChargeAttains(capacity, rate, n, start, lag, lag * rate);
  }

  lemma LateChargeAttains(capacity: nat, rate: real, n: nat, start: real, lag: real, gain: real) returns (at: real)
    requires rate > 0.0 && lag >= 0.0 && gain == lag * rate && gain <= n as real
    ensures var w, ops := Single(Bucket(capacity as real, rate, capacity as real, start)),
                          LateCharge(capacity, n, start, lag);
            && AllLegal(w, ops) && Steady(w, ops, 0, lag) && at >= start
            && ReleasedBy(w, ops, 0, at) as real == capacity as real + (at - start) * rate + gain
  {
    hide Reserved, Refilled, Wait, ReleasedBy, Steady, LateCharge, AllLegal;
    LateChargeBuckets(capacity, rate, n, start, lag);
    var debt := 2.0 * n as real - gain;
    LateChargeWaits(capacity as real, rate, n, debt, start, start + lag);
    at := LateChargeReleases(Bucket(capacity as real, rate, capacity as real, start), capacity, n, start, lag);
    Elapsed(at, start, debt / rate, rate, debt);
  }

  lemma LateChargeWaits(capacity: real, rate: real, n: nat, debt: real, start: real, later: real)
    requires rate > 0.0 && n as real <= debt
    ensures debt / rate * rate == debt && debt / rate >= 0.0
    ensures Wait(Bucket(capacity, rate, -debt, later)) == debt / rate
    ensures Wait(Bucket(capacity, rate, -(n as real), start)) <= Wait(Bucket(capacity, rate, -debt, later))
  {
    WaitIs(capacity, rate, n as real, start);
    WaitIs(capacity, rate, debt, later);
    DividesInOrder(n as real, debt, rate);
    DividesInOrder(debt, debt, rate);
    DividesInOrder(0.0, debt, rate);
  }

  lemma Elapsed(at: real, start: real, wait: real, rate: real, debt: real)
    requires at == start + wait && wait * rate == debt
    ensures (at - start) * rate == debt
  {
    assert at - start == wait;
  }

  lemma AgainReleases(b: Bucket, n: nat, start: real, lag: real, at: real)
    requires b.last <= start + lag && start + Wait(Reserved(b, n, start)) <= at
    ensures var w, ops := Single(b), [Shaping([0], n, start)] + [];
            AllLegal(w, ops) && Steady(w, ops, 0, lag) && ReleasedBy(w, ops, 0, at) == n
  {
    hide Reserved, Wait;
    ShapeOne(b, n, start);
    assert 0 in IdsOf(Shaping([0], n, start));
    hide Apply, Legal, Granted, IdsOf;
    FirstReleased(Single(b), Shaping([0], n, start), [], 0, at, lag);
  }

  lemma ProbeThenAgain(b: Bucket, n: nat, start: real, lag: real, at: real)
    requires b.last == start && lag >= 0.0 && Refilled(b, start + lag).last == start + lag
    requires start + Wait(Reserved(Refilled(b, start + lag), n, start)) <= at
    ensures var w, ops := Single(b), [FullTest(0, start + lag)] + ([Shaping([0], n, start)] + []);
            AllLegal(w, ops) && Steady(w, ops, 0, lag) && ReleasedBy(w, ops, 0, at) == n
  {
    hide Refilled, Reserved, Wait;
    var b' := Refilled(b, start + lag);
    var rest := [Shaping([0], n, start)] + [];
    AgainReleases(b', n, start, lag, at);
    ProbeOne(b, start + lag);
    assert 0 in IdsOf(FullTest(0, start + lag));
    hide Apply, Legal, Granted, IdsOf, ReleasedBy, Steady;
    SameKeysLegal(Single(b'), Single(b), rest);
    FirstReleased(Single(b), FullTest(0, start + lag), rest, 0, at, lag);
  }

  lemma LateChargeReleases(b: Bucket, capacity: nat, n: nat, start: real, lag: real) returns (at: real)
    requires b.last == start && lag >= 0.0
    requires var b1 := Reserved(b, capacity + n, start);
             var b2 := Refilled(b1, start + lag);
             b1.last == start && b2.last == start + lag && Wait(b1) <= Wait(Reserved(b2, n, start))
    ensures var w, ops := Single(b), LateCharge(capacity, n, start, lag);
            && at == start + Wait(Reserved(Refilled(Reserved(b, capacity + n, start), start + lag), n, start))
            && AllLegal(w, ops) && Steady(w, ops, 0, lag) && ReleasedBy(w, ops, 0, at) == capacity + 2 * n
  {
    hide Refilled, Reserved, Wait;
    var b1 := Reserved(b, capacity + n, start);
    at := start + Wait(Reserved(Refilled(b1, start + lag), n, start));
    var first, rest := Shaping([0], capacity + n, start), [FullTest(0, start + lag)] + ([Shaping([0], n, start)] + []);
    ProbeThenAgain(b1, n, start, lag, at);
    ShapeOne(b, capacity + n, start);
    assert 0 in IdsOf(first);
    hide Apply, Legal, Granted, IdsOf, ReleasedBy, Steady;
    SameKeysLegal(Single(b1), Single(b), rest);
    FirstReleased(Single(b), first, rest, 0, at, lag);
  }

  /** A run of a bucket that is new at `start`, with readings that lag it by at most `lag`. */
  ghost predicate RunOfNew<K>(w: World<K>, ops: seq<Op<K>>, k: K, b: Bucket, lag: real) {
    b.tokens == b.capacity && AllLegal(w, ops) && k in w && w[k] == b && Steady(w, ops, k, lag)
  }

  ghost predicate WithinBurst<K>(w: World<K>, ops: seq<Op<K>>, k: K, at: real)
    requires AllLegal(w, ops) && k in w
  {
    ReleasedBy(w, ops, k, at) as real <= w[k].capacity + (at - w[k].last) * w[k].rate
  }

  /** Burst plus rate holds, for each capacity and rate, exactly if readings do not lag the bucket. */
  lemma BurstPlusRateIff(capacity: nat, rate: real, start: real, lag: real)
    requires rate > 0.0 && lag >= 0.0
    ensures var b := Bucket(capacity as real, rate, capacity as real, start);
            (forall w: World<int>, ops: seq<Op<int>>, k: int, at: real ::
               RunOfNew(w, ops, k, b, lag) && at >= start ==> WithinBurst(w, ops, k, at))
            <==> lag == 0.0
  {
    hide ReleasedBy, Steady;
    var b := Bucket(capacity as real, rate, capacity as real, start);
    if lag == 0.0 {
      forall w: World<int>, ops: seq<Op<int>>, k: int, at: real | RunOfNew(w, ops, k, b, lag) && at >= start
        ensures WithinBurst(w, ops, k, at)
      {
        BurstPlusRate(w, ops, k, at);
      }
    } else {
      var ops, at := LagIsAttained(capacity, rate, start, lag);
      assert lag * rate > 0.0;
      assert RunOfNew(Single(b), ops, 0, b, lag) && !WithinBurst(Single(b), ops, 0, at);
    }
  }

  // ---------------------------------------------------------------------------
  // Releases keep their order
  // ---------------------------------------------------------------------------

  /** The instant at which the debt of the bucket is paid. */
  function Ready(b: Bucket): real {
    b.last + Wait(b)
  }

  lemma ReadyNeverFalls(b: Bucket, bytes: nat, now: real)
    requires Sound(b)
    ensures Ready(Refilled(b, now)) >= Ready(b)
    ensures Ready(Spent(b, bytes)) >= Ready(b)
  {
    ReadyAfterRefill(b, now);
    ReadyAfterSpending(b, bytes);
  }

  lemma ReadyAfterRefill(b: Bucket, now: real)
    requires Sound(b)
    ensures Ready(Refilled(b, now)) >= Ready(b)
  {
    if now > b.last && b.tokens < 0.0 {
      var r := Refilled(b, now);
      RefillIsSound(b, now);
      var debt := if r.tokens < 0.0 then r.tokens else 0.0;
      Divides(b.tokens, debt, now - b.last, b.rate);
    }
  }

  lemma Divides(x: real, y: real, dt: real, rate: real)
    requires rate > 0.0 && y <= x + dt * rate
    ensures -x / rate <= dt + -y / rate
  {
    assert (-x / rate) * rate == -x && (-y / rate) * rate == -y;
    assert (dt + -y / rate) * rate == dt * rate - y;
  }

  lemma ReadyAfterSpending(b: Bucket, bytes: nat)
    requires Sound(b)
    ensures Ready(Spent(b, bytes)) >= Ready(b)
  {
    if b.tokens < 0.0 {
      Divides(b.tokens, b.tokens - bytes as real, 0.0, b.rate);
    }
  }

  /** Bytes were let go, and not merely refused. */
  ghost predicate Lets<K>(w: World<K>, op: Op<K>)
    requires Legal(w, op)
  {
    op.Shaping? || (op.Policing? && Apply(w, op).0.ok)
  }

  lemma StepKeepsReady<K>(w: World<K>, op: Op<K>, k: K)
    requires Legal(w, op) && k in w && Sound(w[k])
    requires k in IdsOf(op) ==> !op.Reload?
    ensures Sound(Apply(w, op).1[k]) && Ready(Apply(w, op).1[k]) >= Ready(w[k])
    ensures k in IdsOf(op) && Lets(w, op) && w[k].last <= op.now ==>
              Granted(w, op).1 >= Ready(Apply(w, op).1[k])
  {
    var b, now := w[k], op.now;
    RefillIsSound(b, now);
    ReadyNeverFalls(b, 0, now);
    match op
    case Shaping(ids, bytes, _) =>
      ReserveAllEffect(w, ids, bytes, now);
      ReadyNeverFalls(Refilled(b, now), bytes, now);
    case Policing(ids, bytes, _) =>
      PoliceEffect(w, ids, bytes, now);
      ReadyNeverFalls(Refilled(b, now), bytes, now);
    case _ =>
      assert op.id in IdsOf(op);
  }

  /** The world after the first `n` operations. */
  ghost function WorldAt<K>(w: World<K>, ops: seq<Op<K>>, n: nat): (w': World<K>)
    requires AllLegal(w, ops) && n <= |ops|
    ensures w'.Keys == w.Keys
    decreases n
  {
    if n == 0 then w else
      var before := WorldAt(w, ops, n - 1);
      assert Legal(w, ops[n - 1]);
      Apply(before, ops[n - 1]).1
  }

  lemma LegalAt<K>(w: World<K>, ops: seq<Op<K>>, n: nat)
    requires AllLegal(w, ops) && n < |ops|
    ensures Legal(WorldAt(w, ops, n), ops[n])
  {
    assert Legal(w, ops[n]);
  }

  ghost function ReleaseAt<K>(w: World<K>, ops: seq<Op<K>>, n: nat): real
    requires AllLegal(w, ops) && n < |ops|
  {
    LegalAt(w, ops, n);
    Granted(WorldAt(w, ops, n), ops[n]).1
  }

  /** No retunes, and every reading is at least as late as the buckets it meets. */
  ghost predicate Punctual<K>(w: World<K>, ops: seq<Op<K>>)
    requires AllLegal(w, ops)
  {
    && AllSound(w)
    && Clockwise(ops, if ops == [] then 0.0 else ops[0].now)
    && (forall i :: 0 <= i < |ops| ==> !ops[i].Reload?)
    && (forall k :: k in w && ops != [] ==> w[k].last <= ops[0].now)
  }

  lemma {:induction false} ReadyAlong<K>(w: World<K>, ops: seq<Op<K>>, k: K, i: nat, j: nat)
    requires AllLegal(w, ops) && Punctual(w, ops) && k in w && i <= j <= |ops|
    ensures Sound(WorldAt(w, ops, j)[k])
    ensures Ready(WorldAt(w, ops, j)[k]) >= Ready(WorldAt(w, ops, i)[k])
    ensures j < |ops| ==> WorldAt(w, ops, j)[k].last <= ops[j].now
    decreases j
  {
    hide Ready, Apply, Legal, Sound;
    if j == 0 {
      assert Sound(w[k]);
    } else {
      ReadyAlong(w, ops, k, if i < j then i else j - 1, j - 1);
      LegalAt(w, ops, j - 1);
      StepKeepsReady(WorldAt(w, ops, j - 1), ops[j - 1], k);
      StepClock(WorldAt(w, ops, j - 1), ops[j - 1], k);
    }
  }

  lemma StepClock<K>(w: World<K>, op: Op<K>, k: K)
    requires Legal(w, op) && k in w && !op.Reload? && w[k].last <= op.now
    ensures Apply(w, op).1[k].last <= op.now
  {
    match op
    case Shaping(ids, bytes, now) => ReserveAllEffect(w, ids, bytes, now);
    case Policing(ids, bytes, now) => PoliceEffect(w, ids, bytes, now);
    case FullTest(id, _) => assert id in IdsOf(op);
    case Reload(_, _, _, _) =>
  }

  /**
   First come, first served: whatever is let go later, through at least the same buckets,
   is released no earlier. In particular the releases of one bucket never go backwards.
   */
  lemma ReleasesKeepTheirOrder<K>(w: World<K>, ops: seq<Op<K>>, i: nat, j: nat)
    requires AllLegal(w, ops) && Punctual(w, ops) && i < j < |ops|
    requires Legal(WorldAt(w, ops, i), ops[i]) && Legal(WorldAt(w, ops, j), ops[j])
    requires Lets(WorldAt(w, ops, i), ops[i]) && Lets(WorldAt(w, ops, j), ops[j])
    requires forall k :: k in IdsOf(ops[i]) ==> k in IdsOf(ops[j])
    ensures ReleaseAt(w, ops, i) <= ReleaseAt(w, ops, j)
  {
    hide Ready, Granted, Apply, Lets, Legal;
    var wi, wj := WorldAt(w, ops, i), WorldAt(w, ops, j);
    WaitsAreWaits(wj, ops[j]);
    if Granted(wi, ops[i]).1 > ops[i].now {
      var k := SlowestBucket(wi, ops[i]);
      ReadyAlong(w, ops, k, i + 1, j);
      StepKeepsReady(wj, ops[j], k);
    }
  }

  lemma WaitsAreWaits<K>(w: World<K>, op: Op<K>)
    requires Legal(w, op)
    ensures op.now <= Granted(w, op).1
  {
    if op.Shaping? {
      ReserveAllEffect(w, op.ids, op.bytes, op.now);
    }
  }

  /** A flow that waits does so for one of its buckets. */
  lemma SlowestBucket<K>(w: World<K>, op: Op<K>) returns (k: K)
    requires Legal(w, op) && Granted(w, op).1 > op.now
    ensures k in IdsOf(op) && k in w && Granted(w, op).1 <= Ready(Apply(w, op).1[k])
  {
    ReserveAllEffect(w, op.ids, op.bytes, op.now);
    k :| k in op.ids && Apply(w, op).0.wait == Wait(Apply(w, op).1[k]);
  }

  /** Operation `n` of the run lets its bytes go, at once or after a wait. */
  ghost predicate LetsAt<K>(w: World<K>, ops: seq<Op<K>>, n: nat)
    requires AllLegal(w, ops) && n < |ops|
  {
    LegalAt(w, ops, n);
    Lets(WorldAt(w, ops, n), ops[n])
  }

  /** In this punctual run something goes through the buckets `a`, and later something through `b`. */
  ghost predicate GoesBefore<K>(w: World<K>, ops: seq<Op<K>>, i: nat, j: nat, a: seq<K>, b: seq<K>) {
    && AllLegal(w, ops) && Punctual(w, ops) && i < j < |ops|
    && IdsOf(ops[i]) == a && IdsOf(ops[j]) == b && LetsAt(w, ops, i) && LetsAt(w, ops, j)
  }

  /** Only bucket `k` is in debt. */
  ghost function OneInDebt<K>(a: seq<K>, b: seq<K>, k: K, t: real): World<K> {
    map x | x in a + b :: Bucket(1.0, 1.0, if x == k then -1.0 else 0.0, t)
  }

  lemma DebtStays(tokens: real, t: real)
    requires tokens == 0.0 || tokens == -1.0
    ensures Reserved(Bucket(1.0, 1.0, tokens, t), 0, t) == Bucket(1.0, 1.0, tokens, t)
    ensures Wait(Bucket(1.0, 1.0, tokens, t)) == -tokens
  {
  }

  /** Charging nothing at the time of the last refill changes nothing; the wait is for the debt, if it is met. */
  lemma NothingCharged<K>(a: seq<K>, b: seq<K>, k: K, t: real, ids: seq<K>)
    requires NoDup(ids) && forall x :: x in ids ==> x in a + b
    ensures var w := OneInDebt(a, b, k, t);
            && Known(w, ids) && ReserveAll(w, ids, 0, t).1 == w
            && ReserveAll(w, ids, 0, t).0 == if k in ids then 1.0 else 0.0
  {
    var w := OneInDebt(a, b, k, t);
    DebtStays(0.0, t);
    DebtStays(-1.0, t);
    ReserveAllEffect(w, ids, 0, t);
    hide Reserved, Wait;
    var (wait, w') := ReserveAll(w, ids, 0, t);
    assert forall x :: x in w ==> w'[x] == w[x];
    assert w' == w;
  }

  lemma SecondIsFirst<K>(w: World<K>, a: seq<K>, b: seq<K>, t: real)
    requires NoDup(a) && NoDup(b) && Known(w, a) && Known(w, b) && AllSound(w)
    requires ReserveAll(w, a, 0, t) == (1.0, w) && ReserveAll(w, b, 0, t) == (0.0, w)
    requires forall x :: x in w ==> w[x].last <= t
    ensures var ops := [Shaping(a, 0, t), Shaping(b, 0, t)];
            GoesBefore(w, ops, 0, 1, a, b) && ReleaseAt(w, ops, 1) < ReleaseAt(w, ops, 0)
  {
    hide ReserveAll, AllSound;
    var ops := [Shaping(a, 0, t), Shaping(b, 0, t)];
    assert Legal(w, ops[0]) && Legal(w, ops[1]);
    assert WorldAt(w, ops, 0) == w;
    assert WorldAt(w, ops, 1) == Apply(WorldAt(w, ops, 0), ops[0]).1;
  }

  /** A flow that does not go through all buckets of an earlier one can overtake it. */
  lemma Overtakes<K>(a: seq<K>, b: seq<K>, k: K, t: real)
    requires NoDup(a) && NoDup(b) && k in a && k !in b
    ensures var w, ops := OneInDebt(a, b, k, t), [Shaping(a, 0, t), Shaping(b, 0, t)];
            GoesBefore(w, ops, 0, 1, a, b) && ReleaseAt(w, ops, 1) < ReleaseAt(w, ops, 0)
  {
    hide ReserveAll, GoesBefore, ReleaseAt;
    var w := OneInDebt(a, b, k, t);
    NothingCharged(a, b, k, t, a);
    NothingCharged(a, b, k, t, b);
    SecondIsFirst(w, a, b, t);
  }

  /**
   First come, first served, exactly: for any two sets of buckets, in all punctual runs what goes
   through the first is released no later than what goes through the second after it, if and
   only if the second has all the buckets of the first.
   */
  lemma FirstServedIff<K(!new)>(a: seq<K>, b: seq<K>)
    requires NoDup(a) && NoDup(b)
    ensures (forall w: World<K>, ops: seq<Op<K>>, i: nat, j: nat ::
               GoesBefore(w, ops, i, j, a, b) ==> ReleaseAt(w, ops, i) <= ReleaseAt(w, ops, j))
            <==> forall k :: k in a ==> k in b
  {
    hide Punctual, ReleaseAt, WorldAt;
    if forall k :: k in a ==> k in b {
      forall w: World<K>, ops: seq<Op<K>>, i: nat, j: nat | GoesBefore(w, ops, i, j, a, b)
        ensures ReleaseAt(w, ops, i) <= ReleaseAt(w, ops, j)
      {
        LegalAt(w, ops, i);
        LegalAt(w, ops, j);
        ReleasesKeepTheirOrder(w, ops, i, j);
      }
    } else {
      var k :| k in a && k !in b;
      Overtakes(a, b, k, 0.0);
    }
  }
}
