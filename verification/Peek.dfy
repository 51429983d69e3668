/**
 The peek buffer around a client stream. A connection is a list of read events; the
 buffer may be filled by any number of peeks between reads, and a peek may be abandoned
 or fail half way. Nothing of this may be visible to the reader of the stream.
 */
module Peek {
  import opened Options

  type Byte = bv8

  const MAX_PEEK: nat := 16 * 1024
  const CHUNK: nat := 4096

  /** What the next read of the underlying connection meets. An empty list is end of stream. */
  datatype Event =
    | Data(bytes: seq<Byte>)  // some bytes are ready
    | Stall                   // nothing is ready yet: a poll is pending, a waiting peek may be dropped
    | Broken                  // the read fails

  /** Zero bytes mean end of stream, so ready data is never empty. */
  predicate WellFormed(events: seq<Event>) {
    forall i :: 0 <= i < |events| ==> events[i].Data? ==> events[i].bytes != []
  }

  type Events = es: seq<Event> | WellFormed(es) witness []

  /** All bytes the connection has yet to hand out. */
  function Unread(events: seq<Event>): seq<Byte> {
    if events == [] then [] else (if events[0].Data? then events[0].bytes else []) + Unread(events[1..])
  }

  datatype Got = Bytes(bytes: seq<Byte>) | Pending | Failed

  /** One read of the underlying connection with room for `cap` bytes. */
  function Take(events: Events, cap: nat): (r: (Got, Events))
    requires cap > 0
    ensures r.0.Bytes? ==> |r.0.bytes| <= cap
    ensures r.0.Bytes? ==> (r.0.bytes == [] <==> events == [])
    ensures (if r.0.Bytes? then r.0.bytes else []) + Unread(r.1) == Unread(events)
    ensures r.0.Bytes? && r.0.bytes != [] ==> |Unread(r.1)| < |Unread(events)|
  {
    if events == [] then (Bytes([]), [])
    else match events[0]
      case Stall => (Pending, events[1..])
      case Broken => (Failed, events[1..])
      case Data(bytes) =>
        if |bytes| <= cap then (Bytes(bytes), events[1..])
        else
          var rest := [Data(bytes[cap..])] + events[1..];
          assert rest[1..] == events[1..];
          assert Unread(rest) == bytes[cap..] + Unread(events[1..]);
          assert bytes == bytes[..cap] + bytes[cap..];
          (Bytes(bytes[..cap]), rest)
  }

  /** The wrapper as a value: `buf[pos..]` has been peeked and not read yet. */
  datatype Wrapper = Wrapper(buf: seq<Byte>, pos: nat, inner: Events)

  ghost predicate Ok(w: Wrapper) {
    w.pos <= |w.buf| <= MAX_PEEK
  }

  /** What a reader of the wrapper has still to come. */
  function Undelivered(w: Wrapper): seq<Byte>
    requires w.pos <= |w.buf|
  {
    w.buf[w.pos..] + Unread(w.inner)
  }

  function Min(a: nat, b: nat): nat {
    if a < b then a else b
  }

  /** The filling loop of `peek`: reads until `want` bytes are buffered or the connection ends. */
  function Fill(buf: seq<Byte>, events: Events, want: nat): (r: (Got, seq<Byte>, Events))
    decreases |Unread(events)|
  {
    if |buf| >= want then (Bytes(buf[..want]), buf, events)
    else
      var (got, rest) := Take(events, Min(want - |buf|, CHUNK));
      if !got.Bytes? then (got, buf, rest)
      else if got.bytes == [] then (Bytes(buf), buf, rest)
      else Fill(buf + got.bytes, rest, want)
  }

  function PeekOf(w: Wrapper, want: nat): (Got, Wrapper)
    requires w.pos <= |w.buf|
  {
    var (got, buf, rest) := Fill(w.buf[w.pos..], w.inner, Min(want, MAX_PEEK));
    (got, Wrapper(buf, 0, rest))
  }

  function ReadOf(w: Wrapper, room: nat): (Got, Wrapper)
    requires w.pos <= |w.buf|
  {
    if room == 0 then (Bytes([]), w)
    else if w.pos < |w.buf| then
      var n := Min(|w.buf| - w.pos, room);
      (Bytes(w.buf[w.pos..w.pos + n]), if w.pos + n == |w.buf| then Wrapper([], 0, w.inner) else w.(pos := w.pos + n))
    else
      var (got, rest) := Take(w.inner, room);
      (got, w.(inner := rest))
  }

  /** Filling moves bytes from the connection to the buffer and answers with a full prefix. */
  lemma {:induction false} FillKeeps(buf: seq<Byte>, events: Events, want: nat)
    ensures var (got, buf', rest) := Fill(buf, events, want);
            && buf' + Unread(rest) == buf + Unread(events)
            && |buf'| <= (if |buf| <= want then want else |buf|)
            && (got.Bytes? ==> got.bytes == (buf + Unread(events))[..Min(want, |buf + Unread(events)|)])
    decreases |Unread(events)|
  {
    hide Take;
    if |buf| < want {
      var (got, rest) := Take(events, Min(want - |buf|, CHUNK));
      if got.Bytes? {
        assert buf + (got.bytes + Unread(rest)) == (buf + got.bytes) + Unread(rest);
        if got.bytes != [] {
          FillKeeps(buf + got.bytes, rest, want);
        }
      }
    }
  }

  /** Peeking is invisible, in one step. */
  lemma PeekKeeps(w: Wrapper, want: nat)
    requires Ok(w)
    ensures var (got, w') := PeekOf(w, want);
            && Ok(w')
            && Undelivered(w') == Undelivered(w)
            && (got.Bytes? ==>
                  got.bytes == Undelivered(w)[..Min(Min(want, MAX_PEEK), |Undelivered(w)|)])
  {
    FillKeeps(w.buf[w.pos..], w.inner, Min(want, MAX_PEEK));
    var (_, w') := PeekOf(w, want);
    assert w'.buf[w'.pos..] == w'.buf;
  }

  /** A read delivers the next bytes, and reports end of stream only when nothing is left. */
  lemma ReadDelivers(w: Wrapper, room: nat)
    requires Ok(w)
    ensures var (got, w') := ReadOf(w, room);
            && Ok(w')
            && (if got.Bytes? then got.bytes else []) + Undelivered(w') == Undelivered(w)
            && (got.Bytes? ==> |got.bytes| <= room)
            && (got.Bytes? && got.bytes == [] && room > 0 ==> Undelivered(w) == [] && w.inner == [])
  {
    var (got, w') := ReadOf(w, room);
    if room > 0 && w.pos < |w.buf| {
      assert w.buf[w.pos..] == got.bytes + w'.buf[w'.pos..];
    }
  }

  // ---------------------------------------------------------------------------
  // Which answer a connection gives
  // ---------------------------------------------------------------------------

  /** The bytes that are ready before anything but data comes up. */
  function ReadyBytes(events: seq<Event>): seq<Byte> {
    if events == [] || !events[0].Data? then [] else events[0].bytes + ReadyBytes(events[1..])
  }

  /** What comes up after those: the end of the stream, a stall or a failure. */
  function Trouble(events: seq<Event>): Option<Event> {
    if events == [] then None
    else if events[0].Data? then Trouble(events[1..])
    else Some(events[0])
  }

  /** The answer to a read that meets an event other than data. */
  function AnswerTo(e: Event): Got
    requires !e.Data?
  {
    if e.Stall? then Pending else Failed
  }

  lemma {:induction false} TroubleIsNoData(events: seq<Event>)
    ensures Trouble(events).Some? ==> !Trouble(events).value.Data?
  {
    if events != [] && events[0].Data? {
      TroubleIsNoData(events[1..]);
    }
  }

  /** Ready data may be handed out in two parts. */
  lemma {:induction false} ReadyInParts(bytes: seq<Byte>, cap: nat, later: seq<Event>)
    requires cap <= |bytes|
    ensures bytes[..cap] + ReadyBytes([Data(bytes[cap..])] + later) == bytes + ReadyBytes(later)
    ensures Trouble([Data(bytes[cap..])] + later) == Trouble(later)
  {
    var rest := [Data(bytes[cap..])] + later;
    assert rest[1..] == later;
    assert bytes == bytes[..cap] + bytes[cap..];
    assert bytes[..cap] + (bytes[cap..] + ReadyBytes(later)) == bytes + ReadyBytes(later);
  }

  /** One read either takes some of the ready bytes or meets what comes up first. */
  lemma {:induction false} TakeOfReady(events: Events, cap: nat)
    requires cap > 0
    ensures var (got, rest) := Take(events, cap);
            if events != [] && !events[0].Data? then got == AnswerTo(events[0])
            else got.Bytes? && got.bytes + ReadyBytes(rest) == ReadyBytes(events) && Trouble(rest) == Trouble(events)
  {
    hide Unread;
    if events != [] && events[0].Data? && |events[0].bytes| > cap {
      ReadyInParts(events[0].bytes, cap, events[1..]);
    }
  }

  /** The buffer is filled, or the stream has ended, before anything else comes up. */
  ghost predicate CanFill(buffered: nat, events: seq<Event>, want: nat) {
    buffered + |ReadyBytes(events)| >= want || Trouble(events).None?
  }

  /** Filling answers with bytes exactly if it can, and otherwise with what came up first. */
  lemma {:induction false} FillAnswers(buf: seq<Byte>, events: Events, want: nat)
    ensures var got := Fill(buf, events, want).0;
            && (got.Bytes? <==> CanFill(|buf|, events, want))
            && (!got.Bytes? ==> Trouble(events).Some? && !Trouble(events).value.Data?
                                && got == AnswerTo(Trouble(events).value))
    decreases |Unread(events)|
  {
    hide Take;
    TroubleIsNoData(events);
    if |buf| < want {
      var cap := Min(want - |buf|, CHUNK);
      var (got, rest) := Take(events, cap);
      TakeOfReady(events, cap);
      if got.Bytes? && got.bytes != [] {
        FillAnswers(buf + got.bytes, rest, want);
      }
    }
  }

  /**
   A peek answers with bytes if and only if what is buffered and what is ready reach the wanted
   length, capped at the maximum, or the stream ends before anything comes up; otherwise it is
   pending for a stall and fails for a failure.
   */
  lemma PeekAnswers(w: Wrapper, want: nat)
    requires Ok(w)
    ensures var got := PeekOf(w, want).0;
            && (got.Bytes? <==> CanFill(|w.buf| - w.pos, w.inner, Min(want, MAX_PEEK)))
            && (!got.Bytes? ==> Trouble(w.inner).Some? && !Trouble(w.inner).value.Data?
                                && got == AnswerTo(Trouble(w.inner).value))
  {
    FillAnswers(w.buf[w.pos..], w.inner, Min(want, MAX_PEEK));
  }

  /**
   A read with room is pending or fails only when nothing is buffered and that is what comes up
   next; buffered bytes are handed out as far as there is room.
   */
  lemma ReadAnswers(w: Wrapper, room: nat)
    requires Ok(w)
    ensures var got := ReadOf(w, room).0;
            var blocked := room > 0 && w.pos == |w.buf| && w.inner != [] && !w.inner[0].Data?;
            && (got.Bytes? <==> !blocked)
            && (blocked ==> got == AnswerTo(w.inner[0]))
            && (w.pos < |w.buf| ==> got.Bytes? && |got.bytes| == Min(|w.buf| - w.pos, room))
            && (w.pos == |w.buf| && room > 0 && w.inner != [] && w.inner[0].Data? ==>
                  got.Bytes? && |got.bytes| == Min(|w.inner[0].bytes|, room))
  {
  }

  datatype Op = PeekOp(want: nat) | ReadOp(room: nat)

  function Step(w: Wrapper, op: Op): (Got, Wrapper)
    requires w.pos <= |w.buf|
  {
    match op
    case PeekOp(want) => PeekOf(w, want)
    case ReadOp(room) => ReadOf(w, room)
  }

  /** The bytes a step hands to the reader. */
  function Handed(op: Op, got: Got): seq<Byte> {
    if op.ReadOp? && got.Bytes? then got.bytes else []
  }

  lemma StepKeeps(w: Wrapper, op: Op)
    requires Ok(w)
    ensures var (got, w') := Step(w, op);
            Ok(w') && Handed(op, got) + Undelivered(w') == Undelivered(w)
  {
    match op
    case PeekOp(want) => PeekKeeps(w, want);
    case ReadOp(room) => ReadDelivers(w, room);
  }

  /** The bytes handed out by the reads among `ops`, and the wrapper they leave behind. */
  ghost function Drive(w: Wrapper, ops: seq<Op>): (r: (seq<Byte>, Wrapper))
    requires Ok(w)
    ensures Ok(r.1)
    decreases |ops|
  {
    if ops == [] then ([], w)
    else
      var (got, w') := Step(w, ops[0]);
      StepKeeps(w, ops[0]);
      var (more, last) := Drive(w', ops[1..]);
      (Handed(ops[0], got) + more, last)
  }

  /** Whatever mix of peeks and reads, delivered bytes followed by what is left are the stream. */
  lemma {:induction false} PeekingIsInvisible(w: Wrapper, ops: seq<Op>)
    requires Ok(w)
    ensures var (delivered, last) := Drive(w, ops);
            delivered + Undelivered(last) == Undelivered(w)
    decreases |ops|
  {
    if ops != [] {
      var (got, w') := Step(w, ops[0]);
      StepKeeps(w, ops[0]);
      PeekingIsInvisible(w', ops[1..]);
      var now := Handed(ops[0], got);
      var (more, last) := Drive(w', ops[1..]);
      assert (now + more) + Undelivered(last) == now + (more + Undelivered(last));
    }
  }

  /** Seen from a fresh wrapper: a peek after any history shows the bytes right after those delivered. */
  lemma PeekShowsNext(events: Events, ops: seq<Op>, want: nat)
    ensures var (delivered, w) := Drive(Wrapper([], 0, events), ops);
            var (got, w') := PeekOf(w, want);
            && |w'.buf| <= MAX_PEEK
            && |delivered| <= |Unread(events)|
            && (got.Bytes? ==>
                  var next := Unread(events)[|delivered|..];
                  got.bytes == next[..Min(Min(want, MAX_PEEK), |next|)])
  {
    var start := Wrapper([], 0, events);
    assert Undelivered(start) == Unread(events);
    PeekingIsInvisible(start, ops);
    var (delivered, w) := Drive(start, ops);
    PeekKeeps(w, want);
    assert Unread(events)[|delivered|..] == Undelivered(w);
  }

  /** The program's wrapper, which updates its buffer and position in place. */
  class Peekable {
    var buf: seq<Byte>
    var pos: nat
    var inner: Events

    ghost predicate Valid()
      reads this
    {
      Ok(View())
    }

    ghost function View(): Wrapper
      reads this
    {
      Wrapper(buf, pos, inner)
    }

    constructor (stream: Events)
      ensures Valid() && View() == Wrapper([], 0, stream)
      ensures Undelivered(View()) == Unread(stream)
    {
      buf, pos, inner := [], 0, stream;
    }

    method Peek(want0: nat) returns (got: Got)
      requires Valid()
      modifies this
      ensures Valid()
      ensures (got, View()) == PeekOf(old(View()), want0)
      ensures Undelivered(View()) == old(Undelivered(View()))
      ensures got.Bytes? ==>
                got.bytes == Undelivered(View())[..Min(Min(want0, MAX_PEEK), |Undelivered(View())|)]
      ensures got.Bytes? <==> CanFill(|old(buf)| - old(pos), old(inner), Min(want0, MAX_PEEK))
    {
      PeekKeeps(View(), want0);
      PeekAnswers(View(), want0);
      var want := Min(want0, MAX_PEEK);
      ghost var all := Fill(buf[pos..], inner, want);
      if pos > 0 {
        buf := buf[pos..];
        pos := 0;
      }
      assert old(buf)[old(pos)..] == buf;
      while |buf| < want
        invariant pos == 0
        invariant Fill(buf, inner, want) == all
        decreases |Unread(inner)|
      {
        var cap := Min(want - |buf|, CHUNK);
        var (chunk, rest) := Take(inner, cap);
        inner := rest;
        if !chunk.Bytes? {
          return chunk;
        }
        if chunk.bytes == [] {
          assert all == (Bytes(buf), buf, inner) && buf[..|buf|] == buf;
          break;
        }
        buf := buf + chunk.bytes;
      }
      var end := Min(want, |buf|);
      got := Bytes(buf[..end]);
    }

    method PollRead(room: nat) returns (got: Got)
      requires Valid()
      modifies this
      ensures Valid()
      ensures (got, View()) == ReadOf(old(View()), room)
      ensures (if got.Bytes? then got.bytes else []) + Undelivered(View()) == old(Undelivered(View()))
      ensures old(pos) < |old(buf)| ==> got.Bytes?
    {
      ReadDelivers(View(), room);
      ReadAnswers(View(), room);
      if room == 0 {
        return Bytes([]);
      }
      if pos < |buf| {
        var n := Min(|buf| - pos, room);
        got := Bytes(buf[pos..][..n]);
        assert buf[pos..][..n] == buf[pos..pos + n];
        pos := pos + n;
        if pos == |buf| {
          buf, pos := [], 0;
        }
        return;
      }
      var (g, rest) := Take(inner, room);
      inner := rest;
      got := g;
    }
  }
}
