/**
 The token bucket: its arithmetic as functions on values, the laws of that arithmetic,
 and the object whose methods update the bucket in place. Times are seconds on one clock;
 a reading may be stale, that is, earlier than the bucket's last refill.
 */
module TokenBuckets {
  import opened Options

  /** `tokens` may be negative: bytes promised and not refilled yet. */
  datatype Bucket = Bucket(capacity: real, rate: real, tokens: real, last: real)

  function Min(a: real, b: real): real {
    if a < b then a else b
  }

  function Max(a: real, b: real): real {
    if a > b then a else b
  }

  ghost predicate Sound(b: Bucket) {
    b.rate > 0.0 && b.tokens <= b.capacity
  }

  predicate Degenerate(bytes: nat, window: real) {
    bytes == 0 || window <= 0.0
  }

  function FromRateWindow(bytes: nat, window: real, now: real): Option<Bucket> {
    if Degenerate(bytes, window) then None
    else Some(Bucket(bytes as real, bytes as real / window, bytes as real, now))
  }

  /** What the bucket earns up to a reading; a stale reading earns nothing. */
  function Accrued(b: Bucket, now: real): real {
    if now > b.last then (now - b.last) * b.rate else 0.0
  }

  function Refilled(b: Bucket, now: real): Bucket {
    if now > b.last then b.(tokens := Min(b.tokens + Accrued(b, now), b.capacity), last := now) else b
  }

  function Spent(b: Bucket, bytes: nat): Bucket {
    b.(tokens := b.tokens - bytes as real)
  }

  function Reserved(b: Bucket, bytes: nat, now: real): Bucket {
    Spent(Refilled(b, now), bytes)
  }

  /** How long a caller has to wait for the debt of the bucket to be refilled. */
  function Wait(b: Bucket): (w: real)
    ensures w >= 0.0
    ensures b.rate > 0.0 ==> b.tokens + w * b.rate >= 0.0
    ensures b.rate > 0.0 && w > 0.0 ==> b.tokens + w * b.rate == 0.0
  {
    if b.tokens >= 0.0 || b.rate <= 0.0 then 0.0 else
      var w := -b.tokens / b.rate;
      assert w * b.rate == -b.tokens;
      assert w > 0.0;
      w
  }

  predicate Has(b: Bucket, bytes: nat, now: real) {
    Refilled(b, now).tokens >= bytes as real
  }

  predicate IsFull(b: Bucket, now: real) {
    Refilled(b, now).tokens >= b.capacity
  }

  function Retuned(b: Bucket, bytes: nat, window: real, now: real): Bucket {
    if Degenerate(bytes, window) then b
    else
      var r := Refilled(b, now);
      Bucket(bytes as real, bytes as real / window, Min(r.tokens, bytes as real), r.last)
  }

  // ---------------------------------------------------------------------------
  // Laws of one bucket
  // ---------------------------------------------------------------------------

  lemma Distribute(x: real, y: real, rate: real)
    ensures x * rate + y * rate == (x + y) * rate
    ensures y >= 0.0 && rate >= 0.0 ==> y * rate >= 0.0
  {
  }

  /** Split refills compose: refilling on the way makes no difference later. */
  lemma RefillsCompose(b: Bucket, t: real, now: real)
    requires Sound(b) && t <= now
    ensures Refilled(Refilled(b, t), now) == Refilled(b, now)
  {
    if b.last < t < now {
      Distribute(t - b.last, now - t, b.rate);
    }
  }

  lemma RefillIsSound(b: Bucket, now: real)
    requires Sound(b)
    ensures Sound(Refilled(b, now))
    ensures Refilled(b, now).last == Max(b.last, now)
    ensures b.tokens <= Refilled(b, now).tokens <= b.tokens + Accrued(b, now)
  {
    Distribute(0.0, now - b.last, b.rate);
  }

  /** Raising the limit hands out nothing at once; lowering it takes the surplus away. */
  lemma RetuneGivesNoBurst(b: Bucket, bytes: nat, window: real, now: real)
    requires Sound(b)
    ensures var r := Retuned(b, bytes, window, now);
            && Sound(r)
            && r.tokens <= Refilled(b, now).tokens
            && (Degenerate(bytes, window) ==> r == b)
            && (!Degenerate(bytes, window) ==>
                  r.tokens == Min(Refilled(b, now).tokens, r.capacity) && r.rate * window == r.capacity)
  {
    RefillIsSound(b, now);
    if !Degenerate(bytes, window) {
      var rate := bytes as real / window;
      assert rate * window == bytes as real;
      assert rate > 0.0;
    }
  }

  /** A full bucket is indistinguishable from a new one from then on. */
  lemma FullIsFresh(b: Bucket, bytes: nat, window: real, now: real)
    requires Sound(b) && !Degenerate(bytes, window) && b.last <= now
    requires b.capacity == bytes as real && b.rate == bytes as real / window
    ensures IsFull(b, now) <==> Some(Refilled(b, now)) == FromRateWindow(bytes, window, now)
  {
    RefillIsSound(b, now);
  }

  // ---------------------------------------------------------------------------
  // Histories of one bucket: charges and retunes, at any readings
  // ---------------------------------------------------------------------------

  datatype Event =
    | Shape(bytes: nat, now: real)                  // reserve
    | Police(bytes: nat, now: real)                 // has, then take if it has
    | Probe(now: real)                              // a refill without a charge
    | Retune(bytes: nat, window: real, now: real)   // update_rate_window

  function Next(b: Bucket, e: Event): Bucket {
    match e
    case Shape(bytes, now) => Reserved(b, bytes, now)
    case Police(bytes, now) => if Has(b, bytes, now) then Reserved(b, bytes, now) else Refilled(b, now)
    case Probe(now) => Refilled(b, now)
    case Retune(bytes, window, now) => Retuned(b, bytes, window, now)
  }

  function Charge(b: Bucket, e: Event): nat {
    match e
    case Shape(bytes, _) => bytes
    case Police(bytes, now) => if Has(b, bytes, now) then bytes else 0
    case _ => 0
  }

  function After(b: Bucket, es: seq<Event>): Bucket
    decreases es
  {
    if es == [] then b else After(Next(b, es[0]), es[1..])
  }

  function TotalCharge(b: Bucket, es: seq<Event>): nat
    decreases es
  {
    if es == [] then 0 else Charge(b, es[0]) + TotalCharge(Next(b, es[0]), es[1..])
  }

  /** The sum of each rate times the time the bucket spent under it. */
  function Credit(b: Bucket, es: seq<Event>): real
    decreases es
  {
    if es == [] then 0.0 else Accrued(b, Next(b, es[0]).last) + Credit(Next(b, es[0]), es[1..])
  }

  /** What an event loses to the cap: credit that does not fit, and surplus above a lowered capacity. */
  function Spill(b: Bucket, e: Event): real {
    var earned := b.tokens + Accrued(b, e.now);
    match e
    case Retune(bytes, window, _) =>
      if Degenerate(bytes, window) then 0.0 else Max(0.0, earned - Min(b.capacity, bytes as real))
    case _ => Max(0.0, earned - b.capacity)
  }

  function TotalSpill(b: Bucket, es: seq<Event>): real
    decreases es
  {
    if es == [] then 0.0 else Spill(b, es[0]) + TotalSpill(Next(b, es[0]), es[1..])
  }

  lemma StepConserves(b: Bucket, e: Event)
    requires Sound(b)
    ensures var b' := Next(b, e);
            && Sound(b')
            && b'.last >= b.last
            && Spill(b, e) >= 0.0
            && Charge(b, e) as real + Spill(b, e) + b'.tokens == b.tokens + Accrued(b, b'.last)
  {
    match e
    case Retune(bytes, window, now) =>
      RetuneGivesNoBurst(b, bytes, window, now);
      RefillIsSound(b, now);
    case _ =>
      RefillIsSound(b, e.now);
  }

  /**
   Conservation over every history, whatever the readings: tokens stay within the current
   capacity, and bytes charged plus tokens left are the tokens at the start plus what each
   rate earned while it was in force, less what did not fit under the cap.
   */
  lemma {:induction false} HistoryConserves(b: Bucket, es: seq<Event>)
    requires Sound(b)
    ensures Sound(After(b, es))
    ensures After(b, es).last >= b.last
    ensures TotalSpill(b, es) >= 0.0
    ensures TotalCharge(b, es) as real + TotalSpill(b, es) + After(b, es).tokens == b.tokens + Credit(b, es)
    decreases es
  {
    if es != [] {
      hide Next, Spill, Charge, Accrued;
      StepConserves(b, es[0]);
      HistoryConserves(Next(b, es[0]), es[1..]);
    }
  }

  ghost predicate NeverRetuned(es: seq<Event>) {
    forall i :: 0 <= i < |es| ==> !es[i].Retune?
  }

  lemma StepAtFixedRate(b: Bucket, e: Event, later: real)
    requires !e.Retune?
    ensures var b' := Next(b, e);
            && b'.rate == b.rate && b'.capacity == b.capacity && b'.last >= b.last
            && (later >= b'.last ==> Accrued(b, b'.last) + Accrued(b', later) == Accrued(b, later))
  {
    var b' := Next(b, e);
    Distribute(b'.last - b.last, later - b'.last, b.rate);
  }

  /** Between retunes the credit is the rate times the elapsed time, however the time is cut up. */
  lemma {:induction false} CreditAtFixedRate(b: Bucket, es: seq<Event>)
    requires NeverRetuned(es)
    ensures Credit(b, es) == Accrued(b, After(b, es).last)
    ensures After(b, es).rate == b.rate && After(b, es).capacity == b.capacity && After(b, es).last >= b.last
    decreases es
  {
    if es == [] {
      assert Accrued(b, b.last) == 0.0;
    } else {
      hide Next, Accrued;
      CreditAtFixedRate(Next(b, es[0]), es[1..]);
      StepAtFixedRate(b, es[0], After(b, es).last);
    }
  }

  /** A new rate is not applied backwards: the time up to a retune is paid at the rate before it. */
  lemma {:induction false} CreditSplitsAt(b: Bucket, es: seq<Event>, fs: seq<Event>)
    ensures Credit(b, es + fs) == Credit(b, es) + Credit(After(b, es), fs)
    ensures After(b, es + fs) == After(After(b, es), fs)
    ensures TotalCharge(b, es + fs) == TotalCharge(b, es) + TotalCharge(After(b, es), fs)
    decreases es
  {
    hide Next, Accrued, Charge;
    if es == [] {
      assert es + fs == fs;
    } else {
      assert (es + fs)[1..] == es[1..] + fs;
      CreditSplitsAt(Next(b, es[0]), es[1..], fs);
    }
  }

  /** What a rate earns between two instants. */
  function Over(rate: real, from: real, until: real): real {
    (until - from) * rate
  }

  lemma OverSplits(rate: real, from: real, mid: real, until: real)
    ensures Over(rate, from, mid) + Over(rate, mid, until) == Over(rate, from, until)
  {
    Distribute(mid - from, until - mid, rate);
  }

  lemma TimePays(b: Bucket, until: real)
    requires b.last <= until
    ensures Accrued(b, until) == Over(b.rate, b.last, until)
  {
    if b.last == until {
      assert (until - b.last) * b.rate == 0.0;
    }
  }

  lemma OneCredit(b: Bucket, e: Event)
    ensures After(b, [e]) == Next(b, e) && Credit(b, [e]) == Accrued(b, Next(b, e).last)
  {
    hide Next, Accrued;
    assert [e][1..] == [];
  }

  /** Up to and including a retune the old rate pays. */
  lemma CreditUpToRetune(b: Bucket, es: seq<Event>, e: Event)
    requires Sound(b) && NeverRetuned(es) && e.Retune?
    ensures After(b, es + [e]).last >= b.last
    ensures Credit(b, es + [e]) == Over(b.rate, b.last, After(b, es + [e]).last)
  {
    hide Next, Accrued, After, Credit, Spill, Charge, Over, TotalCharge, TotalSpill;
    var mid := After(b, es);
    HistoryConserves(b, es);
    CreditSplitsAt(b, es, [e]);
    CreditAtFixedRate(b, es);
    StepConserves(mid, e);
    OneCredit(mid, e);
    TimePays(b, mid.last);
    TimePays(mid, Next(mid, e).last);
    OverSplits(b.rate, b.last, mid.last, Next(mid, e).last);
  }

  /**
   Charges, a retune, more charges, at any readings: bytes charged, spilled and left over are
   the tokens at the start, plus the old rate times the time up to the retune, plus the new
   rate times the time after it. No new rate is ever applied backwards.
   */
  lemma EachRatePaysItsTime(b: Bucket, es: seq<Event>, e: Event, fs: seq<Event>)
    requires Sound(b) && NeverRetuned(es) && e.Retune? && NeverRetuned(fs)
    ensures var mid := After(b, es + [e]);
            var end := After(b, es + [e] + fs);
            && b.last <= mid.last <= end.last && end.tokens <= end.capacity == mid.capacity
            && TotalSpill(b, es + [e] + fs) >= 0.0
            && TotalCharge(b, es + [e] + fs) as real + TotalSpill(b, es + [e] + fs) + end.tokens
               == b.tokens + Over(b.rate, b.last, mid.last) + Over(mid.rate, mid.last, end.last)
  {
    hide Next, Accrued, After, Credit, Spill, Charge, Over, TotalCharge, TotalSpill;
    var mid := After(b, es + [e]);
    HistoryConserves(b, es + [e]);
    HistoryConserves(b, es + [e] + fs);
    CreditSplitsAt(b, es + [e], fs);
    CreditUpToRetune(b, es, e);
    CreditAtFixedRate(mid, fs);
    TimePays(mid, After(mid, fs).last);
  }

  // ---------------------------------------------------------------------------
  // The object
  // ---------------------------------------------------------------------------

  /** A shared bucket; `addr` is the address its users lock it by. */
  class TokenBucket {
    const addr: nat
    var capacity: real
    var rate: real
    var tokens: real
    var last: real

    ghost function View(): Bucket
      reads this
    {
      Bucket(capacity, rate, tokens, last)
    }

    constructor (addr: nat, rate: real, capacity: real, now: real)
      ensures View() == Bucket(capacity, rate, capacity, now)
      ensures this.addr == addr
    {
      this.addr := addr;
      this.capacity, this.rate, this.tokens, this.last := capacity, rate, capacity, now;
    }

    method Refill(now: real)
      modifies this
      ensures View() == Refilled(old(View()), now)
    {
      var elapsed := if now > last then now - last else 0.0;
      if elapsed > 0.0 {
        tokens := Min(tokens + elapsed * rate, capacity);
        last := now;
      }
    }

    method Reserve(bytes: nat, now: real) returns (wait: real)
      modifies this
      ensures View() == Reserved(old(View()), bytes, now)
      ensures wait == Wait(View())
    {
      Refill(now);
      tokens := tokens - bytes as real;
      if tokens >= 0.0 || rate <= 0.0 {
        wait := 0.0;
      } else {
        wait := -tokens / rate;
      }
    }

    method CanCover(bytes: nat, now: real) returns (has: bool)
      modifies this
      ensures View() == Refilled(old(View()), now)
      ensures has == Has(old(View()), bytes, now)
    {
      Refill(now);
      has := tokens >= bytes as real;
    }

    method Take(bytes: nat)
      modifies this
      ensures View() == Spent(old(View()), bytes)
    {
      tokens := tokens - bytes as real;
    }

    method UpdateRateWindow(bytes: nat, window: real, now: real)
      modifies this
      ensures View() == Retuned(old(View()), bytes, window, now)
    {
      if bytes == 0 || window <= 0.0 {
        return;
      }
      Refill(now);
      rate := bytes as real / window;
      capacity := bytes as real;
      tokens := Min(tokens, capacity);
    }

    method Full(now: real) returns (full: bool)
      modifies this
      ensures View() == Refilled(old(View()), now)
      ensures full == IsFull(old(View()), now)
    {
      Refill(now);
      full := tokens >= capacity;
    }
  }
}
