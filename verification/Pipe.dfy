/** The pipe's ring of bytes. pipewrite and piperead hold the pipe's lock except while they sleep, so any
    interleaving is a sequence of segments: a call from its start, or from where it slept, up to where
    it sleeps or returns. */
module Pipe {
  import opened Common

  const PIPESIZE := 512

  /** How a segment ends. */
  datatype End = Return(r: int) | Sleep

  lemma Wrapped(a: nat, d: nat)
    requires d <= PIPESIZE
    ensures (a + d) % TWO32 == Add32(a % TWO32, d)
    ensures (a + d) % TWO32 == a % TWO32 <==> d == 0
    ensures (a + d) % TWO32 == Add32(a % TWO32, PIPESIZE) <==> d == PIPESIZE
    ensures a % TWO32 % PIPESIZE == a % PIPESIZE
  {
    WrapStep(a, d);
    WrapStep(a, PIPESIZE);
    assert a == a / TWO32 * TWO32 + a % TWO32;
    assert a == (a / TWO32 * 0x80_0000) * PIPESIZE + a % TWO32;
    ModShift(a % TWO32, a / TWO32 * 0x80_0000);
  }

  lemma WrapStep(a: nat, d: nat)
    requires d <= PIPESIZE
    ensures (a + d) % TWO32 == Add32(a % TWO32, d)
    ensures (a + d) % TWO32 == if a % TWO32 + d < TWO32 then a % TWO32 + d else a % TWO32 + d - TWO32
  {
  }

  lemma ModShift(x: nat, q: nat)
    ensures (q * PIPESIZE + x) % PIPESIZE == x % PIPESIZE
  {
  }

  /** Different bytes in transit are in different cells. */
  lemma OtherCell(a: nat, b: nat)
    requires a < b < a + PIPESIZE
    ensures a % PIPESIZE != b % PIPESIZE
  {
  }

  /** What a pipe is to its users: the bytes ever accepted from writers and ever delivered to readers, which
      ends are open, whether the page is given back, and who sleeps in piperead and in pipewrite. */
  datatype Chan = Chan(sent: seq<Byte>, got: seq<Byte>, readopen: bool, writeopen: bool, freed: bool,
                       readers: set<nat>, writers: set<nat>)

  const NewChan := Chan([], [], true, true, false, {}, {})

  /** What can happen to a pipe: a segment of a write or of a read, or the closing of an end. A writer has
      start bytes of src behind it, can copy in the first good bytes of src, and is seen as killed after
      alive looks; a reader can copy out good bytes. */
  datatype Event =
    | WriteSeg(id: nat, src: seq<Byte>, start: nat, good: nat, alive: nat)
    | ReadSeg(id: nat, n: int, good: nat, killed: bool)
    | CloseEnd(writable: bool)

  /** What comes of it: how a write's segment ends and how far it is in src, how a read's ends and its bytes. */
  datatype Out = Wrote(e: End, i: nat) | Took(e: End, dst: seq<Byte>) | Closed | Gone

  predicate WellFormed(ev: Event) {
    ev.WriteSeg? ==> ev.start <= |ev.src|
  }

  predicate Bounded(c: Chan) {
    && c.got <= c.sent && |c.sent| - |c.got| <= PIPESIZE
    && (c.writers != {} ==> c.readopen && |c.sent| - |c.got| == PIPESIZE)
    && c.freed == (!c.readopen && !c.writeopen)
  }

  /** Nobody sleeps for bytes that are there, or for a writer that is gone. */
  predicate Served(c: Chan) {
    c.readers != {} ==> c.writeopen && |c.sent| == |c.got|
  }

  function Room(c: Chan): (r: nat)
    requires Bounded(c)
  {
    PIPESIZE - (|c.sent| - |c.got|)
  }

  /** How far in src a write's segment comes: as far as the ring, the reader's end, the writer's memory and
      its life all allow. */
  function Reach(c: Chan, ev: Event): (i: nat)
    requires Bounded(c) && ev.WriteSeg? && WellFormed(ev)
    ensures ev.start <= i <= |ev.src| && i - ev.start <= Room(c)
  {
    if !c.readopen || ev.good <= ev.start then ev.start
    else ev.start + Min(Min(|ev.src| - ev.start, ev.alive), Min(Room(c), ev.good - ev.start))
  }

  /** A segment that gets to i, and cannot go on, reaches i. */
  lemma Stops(c: Chan, ev: Event, i: nat)
    requires Bounded(c) && ev.WriteSeg? && WellFormed(ev) && ev.start <= i <= |ev.src|
    requires i - ev.start <= ev.alive && |c.sent| - |c.got| + i - ev.start <= PIPESIZE
    requires (i == ev.start || (i <= ev.good && c.readopen))
    requires i == |ev.src| || !c.readopen || i - ev.start >= ev.alive
      || |c.sent| - |c.got| + i - ev.start == PIPESIZE || i >= ev.good
    ensures Reach(c, ev) == i && (i - ev.start == Room(c) <==> |c.sent| - |c.got| + i - ev.start == PIPESIZE)
  {
  }

  function WriteEnd(c: Chan, ev: Event): (e: End)
    requires Bounded(c) && ev.WriteSeg? && WellFormed(ev)
  {
    var i := Reach(c, ev);
    if i == |ev.src| then Return(i)
    else if !c.readopen || i - ev.start >= ev.alive then Return(-1)
    else if i - ev.start == Room(c) then Sleep
    else Return(i)
  }

  function Written(c: Chan, ev: Event): (d: Chan)
    requires Bounded(c) && ev.WriteSeg? && WellFormed(ev)
    ensures Bounded(d)
  {
    var e := WriteEnd(c, ev);
    c.(sent := c.sent + ev.src[ev.start..Reach(c, ev)],
       readers := if e == Return(-1) then c.readers else {},
       writers := if e.Sleep? then c.writers + {ev.id} else c.writers - {ev.id})
  }

  predicate MustSleep(c: Chan, killed: bool) {
    c.sent == c.got && c.writeopen && !killed
  }

  /** The bytes a read gets: the oldest in transit, as many as are asked for and can be copied out. */
  function Gets(c: Chan, n: int, good: nat): (dst: seq<Byte>)
    requires Bounded(c)
  {
    c.sent[|c.got|..][..Min(Min(if n < 0 then 0 else n, good), |c.sent| - |c.got|)]
  }

  /** piperead's result once it copies: -1 if the first byte there cannot be copied out. */
  function GetsEnd(c: Chan, n: int, good: nat): (r: int)
    requires Bounded(c)
  {
    if n > 0 && good == 0 && c.sent != c.got then -1 else |Gets(c, n, good)|
  }

  function ReadEnd(c: Chan, ev: Event): (e: End)
    requires Bounded(c) && ev.ReadSeg?
  {
    if MustSleep(c, ev.killed) then Sleep
    else if c.sent == c.got && c.writeopen then Return(-1)
    else Return(GetsEnd(c, ev.n, ev.good))
  }

  /** The bytes of one read's segment. */
  function Taken(c: Chan, ev: Event): (dst: seq<Byte>)
    requires Bounded(c) && ev.ReadSeg?
  {
    if c.sent == c.got && c.writeopen then [] else Gets(c, ev.n, ev.good)
  }

  function ReadDone(c: Chan, ev: Event): (d: Chan)
    requires Bounded(c) && ev.ReadSeg?
    ensures Bounded(d)
  {
    if c.sent == c.got && c.writeopen then
      c.(readers := if ev.killed then c.readers - {ev.id} else c.readers + {ev.id})
    else
      Prefix(c, ev.n, ev.good);
      c.(got := c.got + Gets(c, ev.n, ev.good), readers := c.readers - {ev.id}, writers := {})
  }

  lemma Prefix(c: Chan, n: int, good: nat)
    requires Bounded(c)
    ensures c.got + Gets(c, n, good) <= c.sent
  {
    var dst := Gets(c, n, good);
    assert dst == c.sent[|c.got|..|c.got| + |dst|];
    assert c.sent[..|c.got|] + c.sent[|c.got|..|c.got| + |dst|] == c.sent[..|c.got| + |dst|];
  }

  function ClosedAt(c: Chan, writable: bool): (d: Chan)
    requires Bounded(c)
    ensures Bounded(d)
  {
    if writable then c.(writeopen := false, readers := {}, freed := !c.readopen)
    else c.(readopen := false, writers := {}, freed := !c.writeopen)
  }

  /** One event. Nothing happens to a pipe that is given back. */
  function Step(c: Chan, ev: Event): (r: (Chan, Out))
    requires Bounded(c) && WellFormed(ev)
    ensures Bounded(r.0)
  {
    if c.freed then (c, Gone) else
    match ev
    case WriteSeg(_, _, _, _, _) => (Written(c, ev), Wrote(WriteEnd(c, ev), Reach(c, ev)))
    case ReadSeg(_, _, _, _) => (ReadDone(c, ev), Took(ReadEnd(c, ev), Taken(c, ev)))
    case CloseEnd(writable) => (ClosedAt(c, writable), Closed)
  }

  function Steps(c: Chan, es: seq<Event>): (r: (Chan, seq<Out>))
    requires Bounded(c) && forall o :: 0 <= o < |es| ==> WellFormed(es[o])
    ensures Bounded(r.0) && |r.1| == |es|
  {
    if es == [] then (c, [])
    else
      var last := |es| - 1;
      var before := Steps(c, es[..last]);
      var r := Step(before.0, es[last]);
      (r.0, before.1 + [r.1])
  }

  /** The bytes the writes of a run sent, in order. */
  function Sent(es: seq<Event>, outs: seq<Out>): (bs: seq<Byte>)
    requires |es| == |outs|
  {
    if es == [] then [] else
    var ev, out := es[|es| - 1], outs[|es| - 1];
    Sent(es[..|es| - 1], outs[..|es| - 1])
      + if ev.WriteSeg? && out.Wrote? && ev.start <= out.i <= |ev.src| then ev.src[ev.start..out.i] else []
  }

  /** The bytes the reads of a run got, in order. */
  function Got(outs: seq<Out>): (bs: seq<Byte>) {
    if outs == [] then [] else
    var out := outs[|outs| - 1];
    Got(outs[..|outs| - 1]) + if out.Took? then out.dst else []
  }

  /** First in, first out, whatever the interleaving: the bytes got by all the reads are the first of the
      bytes sent by all the writes, and at most PIPESIZE fewer. */
  lemma {:induction false} Fifo(es: seq<Event>)
    requires forall o :: 0 <= o < |es| ==> WellFormed(es[o])
    ensures var (c, outs) := Steps(NewChan, es);
            && c.sent == Sent(es, outs) && c.got == Got(outs)
            && Got(outs) <= Sent(es, outs) && |Sent(es, outs)| - |Got(outs)| <= PIPESIZE
  {
    hide Step;
    if es != [] {
      var last := |es| - 1;
      Fifo(es[..last]);
      var (c, outs) := Steps(NewChan, es[..last]);
      var r := Step(c, es[last]);
      assert (outs + [r.1])[..last] == outs;
      FifoStep(c, es[last]);
    }
  }

  lemma FifoStep(c: Chan, ev: Event)
    requires Bounded(c) && WellFormed(ev)
    ensures var (d, out) := Step(c, ev);
            && d.got <= d.sent && |d.sent| - |d.got| <= PIPESIZE
            && d.got == c.got + (if out.Took? then out.dst else [])
            && (ev.WriteSeg? && out.Wrote? ==> ev.start <= out.i <= |ev.src|)
            && d.sent == c.sent + if ev.WriteSeg? && out.Wrote? then ev.src[ev.start..out.i] else []
  {
  }

  // ---- outcomes, from the events and outcomes before ----

  /** The end has not been closed. */
  predicate Open(es: seq<Event>, writable: bool) {
    CloseEnd(writable) !in es
  }

  /** What becomes of an event after those before it. In transit are the bytes sent and not yet got. A write takes as
      many bytes as it has, as there is room and as it can copy in and lives to; it returns how far in src it is,
      -1 if the other end is closed or it is killed, and sleeps if the ring is full. A read gets the oldest bytes,
      as many as it asks for and can copy out, and returns their number, -1 if it can copy none of those it asks
      for; with nothing in transit it sleeps while somebody may write, or returns -1 when killed. */
  predicate Answer(es: seq<Event>, outs: seq<Out>, ev: Event, out: Out)
    requires |es| == |outs| && WellFormed(ev)
  {
    var transit := |Sent(es, outs)| - |Got(outs)|;
    if !Open(es, false) && !Open(es, true) then out == Gone
    else if !(0 <= transit <= 512) then false
    else
      match ev
      case WriteSeg(id, src, start, good, alive) =>
        && out.Wrote?
        && out.i == start + (if !Open(es, false) || good <= start then 0
                             else Min(Min(|src| - start, alive), Min(512 - transit, good - start)))
        && out.e == (if out.i == |src| then Return(|src|)
                     else if !Open(es, false) || out.i - start == alive then Return(-1)
                     else if transit + out.i - start == 512 then Sleep
                     else Return(out.i))
      case ReadSeg(id, n, good, killed) =>
        && out.Took?
        && if transit == 0 && Open(es, true) then out.dst == [] && out.e == (if killed then Return(-1) else Sleep)
           else
             && |out.dst| == Min(Min(if n < 0 then 0 else n, good), transit)
             && |Got(outs)| + |out.dst| <= |Sent(es, outs)|
             && out.dst == Sent(es, outs)[|Got(outs)|..|Got(outs)| + |out.dst|]
             && out.e == Return(if n > 0 && good == 0 && transit > 0 then -1 else |out.dst|)
      case CloseEnd(_) => out == Closed
  }

  lemma {:induction false} OpenIs(es: seq<Event>)
    requires forall o :: 0 <= o < |es| ==> WellFormed(es[o])
    ensures var c := Steps(NewChan, es).0;
            if !Open(es, false) && !Open(es, true) then c.freed
            else c.readopen == Open(es, false) && c.writeopen == Open(es, true) && !c.freed
  {
    hide Step;
    if es != [] {
      var last := |es| - 1;
      OpenIs(es[..last]);
      assert es == es[..last] + [es[last]];
      OpenStep(Steps(NewChan, es[..last]).0, es[last]);
    }
  }

  lemma OpenStep(c: Chan, ev: Event)
    requires Bounded(c) && WellFormed(ev)
    ensures var d := Step(c, ev).0;
            && (c.freed ==> d == c) && d.freed == (!d.readopen && !d.writeopen)
            && (!c.freed ==> d.readopen == (c.readopen && ev != CloseEnd(false)))
            && (!c.freed ==> d.writeopen == (c.writeopen && ev != CloseEnd(true)))
  {
  }

  /** Over every run each event has the outcome that those before it call for. */
  lemma AllAnswered(es: seq<Event>, k: nat)
    requires (forall o :: 0 <= o < |es| ==> WellFormed(es[o])) && k < |es|
    ensures var outs := Steps(NewChan, es).1; Answer(es[..k], outs[..k], es[k], outs[k])
  {
    hide Step;
    OutsPrefix(es, k);
    Fifo(es[..k]);
    OpenIs(es[..k]);
    var (c, outs) := Steps(NewChan, es[..k]);
    AnswerStep(c, es[..k], outs, es[k]);
  }

  lemma AnswerStep(c: Chan, es: seq<Event>, outs: seq<Out>, ev: Event)
    requires |es| == |outs| && WellFormed(ev) && Bounded(c) && c.sent == Sent(es, outs) && c.got == Got(outs)
    requires if !Open(es, false) && !Open(es, true) then c.freed
             else c.readopen == Open(es, false) && c.writeopen == Open(es, true) && !c.freed
    ensures Answer(es, outs, ev, Step(c, ev).1)
  {
    hide Open, Sent, Got;
    if ev.ReadSeg? {
      var dst := Gets(c, ev.n, ev.good);
      assert dst == c.sent[|c.got|..|c.got| + |dst|];
    }
  }

  lemma {:induction false} OutsPrefix(es: seq<Event>, k: nat)
    requires (forall o :: 0 <= o < |es| ==> WellFormed(es[o])) && k < |es|
    ensures var outs := Steps(NewChan, es).1; var m := Steps(NewChan, es[..k]);
            outs[..k] == m.1 && outs[k] == Step(m.0, es[k]).1
    decreases |es|
  {
    hide Step;
    var last := |es| - 1;
    if k < last {
      OutsPrefix(es[..last], k);
      assert es[..last][..k] == es[..k];
    }
  }

  /** The bytes that a process has sent in the write it is in, over all its segments. */
  function SentBy(es: seq<Event>, outs: seq<Out>, id: nat): (bs: seq<Byte>)
    requires |es| == |outs|
  {
    if es == [] then []
    else
      var k := |es| - 1;
      var before := SentBy(es[..k], outs[..k], id);
      if es[k].WriteSeg? && es[k].id == id && outs[k].Wrote? && es[k].start <= outs[k].i <= |es[k].src|
      then (if es[k].start == 0 then [] else before) + es[k].src[es[k].start..outs[k].i]
      else before
  }

  /** A write is called, or goes on where it slept. */
  predicate Resumes(es: seq<Event>, outs: seq<Out>, ev: Event)
    requires |es| == |outs|
  {
    ev.WriteSeg? && ev.start > 0 ==> ev.start <= |ev.src| && SentBy(es, outs, ev.id) == ev.src[..ev.start]
  }

  /** What a write returns, if not -1, is the number of bytes it has sent, over all its segments; a read's is the
      number of bytes it got. */
  lemma ReturnsCount(es: seq<Event>, k: nat)
    requires (forall o :: 0 <= o < |es| ==> WellFormed(es[o])) && k < |es|
    ensures var outs := Steps(NewChan, es).1;
            && (outs[k].Wrote? && Resumes(es[..k], outs[..k], es[k]) ==>
                  && es[k].WriteSeg? && outs[k].i <= |es[k].src|
                  && SentBy(es[..k + 1], outs[..k + 1], es[k].id) == es[k].src[..outs[k].i]
                  && (outs[k].e.Return? && outs[k].e.r != -1 ==> outs[k].e.r == |SentBy(es[..k + 1], outs[..k + 1], es[k].id)|))
            && (outs[k].Took? && outs[k].e.Return? && outs[k].e.r != -1 ==> outs[k].e.r == |outs[k].dst|)
  {
    hide Sent, Got, Steps, SentBy;
    AllAnswered(es, k);
    var outs := Steps(NewChan, es).1;
    StepKind(es, k);
    if outs[k].Wrote? {
      SentByMore(es[..k], outs[..k], es[k], outs[k], es[k].id);
      assert es[..k + 1] == es[..k] + [es[k]] && outs[..k + 1] == outs[..k] + [outs[k]];
      assert es[k].src[..outs[k].i] == es[k].src[..es[k].start] + es[k].src[es[k].start..outs[k].i];
    }
  }

  lemma StepKind(es: seq<Event>, k: nat)
    requires (forall o :: 0 <= o < |es| ==> WellFormed(es[o])) && k < |es|
    ensures Steps(NewChan, es).1[k].Wrote? ==> es[k].WriteSeg?
    ensures Steps(NewChan, es).1[k].Took? ==> es[k].ReadSeg?
  {
    OutsPrefix(es, k);
  }

  lemma SentByMore(es: seq<Event>, outs: seq<Out>, ev: Event, out: Out, id: nat)
    requires |es| == |outs|
    ensures SentBy(es + [ev], outs + [out], id) ==
      if ev.WriteSeg? && ev.id == id && out.Wrote? && ev.start <= out.i <= |ev.src|
      then (if ev.start == 0 then [] else SentBy(es, outs, id)) + ev.src[ev.start..out.i]
      else SentBy(es, outs, id)
  {
    assert (es + [ev])[..|es|] == es && (outs + [out])[..|outs|] == outs;
  }

  /** A write that reaches some byte, and is then seen as killed before it wakes the reader. */
  predicate KilledMidway(c: Chan, ev: Event)
    requires Bounded(c)
  {
    && ev.WriteSeg? && c.readers != {} && c.readopen
    && 1 <= ev.alive < |ev.src| - ev.start && ev.start + ev.alive <= ev.good && ev.alive <= Room(c)
  }

  lemma ServedWrite(c: Chan, ev: Event)
    requires Bounded(c) && ev.WriteSeg? && WellFormed(ev)
    ensures Served(c) ==> (Served(Written(c, ev)) <==> !KilledMidway(c, ev))
  {
  }

  /** An event leaves some reader asleep behind bytes exactly when it is a write killed midway. */
  lemma ServedStep(c: Chan, ev: Event)
    requires Bounded(c) && WellFormed(ev) && Served(c) && !c.freed
    ensures Served(Step(c, ev).0) <==> !KilledMidway(c, ev)
  {
    if ev.ReadSeg? {
      if c.sent == c.got && c.writeopen {
        assert Step(c, ev).0.got == c.got;
      } else {
        assert c.readers == {};
        assert Step(c, ev).0.readers == {};
      }
    }
  }

  /** No write of a run is killed midway. */
  predicate NoneMidway(c: Chan, es: seq<Event>)
    requires Bounded(c) && forall o :: 0 <= o < |es| ==> WellFormed(es[o])
  {
    forall o :: 0 <= o < |es| ==> !KilledMidway(Steps(c, es[..o]).0, es[o])
  }

  /** In a run with no such write no reader ever sleeps behind bytes. */
  lemma {:induction false} AlwaysServed(c: Chan, es: seq<Event>)
    requires Bounded(c) && (forall o :: 0 <= o < |es| ==> WellFormed(es[o])) && Served(c) && NoneMidway(c, es)
    ensures Served(Steps(c, es).0)
  {
    if es != [] {
      var last := |es| - 1;
      forall o | 0 <= o < last
        ensures !KilledMidway(Steps(c, es[..last][..o]).0, es[..last][o])
      {
        assert es[..last][..o] == es[..o];
      }
      AlwaysServed(c, es[..last]);
      var d := Steps(c, es[..last]).0;
      assert !KilledMidway(d, es[last]);
      if !d.freed {
        ServedStep(d, es[last]);
      }
    }
  }

  // ---- who is asleep, from the events and outcomes ----

  /** What wakes readers: a write, unless it gives up, and the closing of the write end. */
  predicate WakesReaders(ev: Event, out: Out) {
    (out.Wrote? && out.e != Return(-1)) || (ev == CloseEnd(true) && out == Closed)
  }

  /** What wakes writers: a read that finds bytes or the write end closed, and the closing of the read end. */
  predicate WakesWriters(es: seq<Event>, outs: seq<Out>, ev: Event, out: Out)
    requires |es| == |outs|
  {
    (out.Took? && (Sent(es, outs) != Got(outs) || !Open(es, true))) || (ev == CloseEnd(false) && out == Closed)
  }

  /** The last segment of a read by process id ended asleep, and nothing has woken readers since. */
  predicate ReaderAsleep(es: seq<Event>, outs: seq<Out>, id: nat)
    requires |es| == |outs|
  {
    es != [] &&
    var last := |es| - 1;
    var ev, out := es[last], outs[last];
    if ev.ReadSeg? && ev.id == id && out.Took? then out.e == Sleep
    else !WakesReaders(ev, out) && ReaderAsleep(es[..last], outs[..last], id)
  }

  /** The same of a write. */
  predicate WriterAsleep(es: seq<Event>, outs: seq<Out>, id: nat)
    requires |es| == |outs|
  {
    es != [] &&
    var last := |es| - 1;
    var ev, out := es[last], outs[last];
    if ev.WriteSeg? && ev.id == id && out.Wrote? then out.e == Sleep
    else !WakesWriters(es[..last], outs[..last], ev, out) && WriterAsleep(es[..last], outs[..last], id)
  }

  /** The sleepers of the channel are those that the outcomes put to sleep. */
  lemma {:induction false} AsleepIs(es: seq<Event>, id: nat)
    requires forall o :: 0 <= o < |es| ==> WellFormed(es[o])
    ensures var (c, outs) := Steps(NewChan, es);
            && (id in c.readers <==> ReaderAsleep(es, outs, id))
            && (id in c.writers <==> WriterAsleep(es, outs, id))
  {
    hide Step, Sent, Got;
    if es != [] {
      var last := |es| - 1;
      AsleepIs(es[..last], id);
      var (c, outs) := Steps(NewChan, es[..last]);
      var r := Step(c, es[last]);
      assert (outs + [r.1])[..last] == outs;
      Fifo(es[..last]);
      OpenIs(es[..last]);
      AsleepStep(c, es[last], id);
    }
  }

  lemma AsleepStep(c: Chan, ev: Event, id: nat)
    requires Bounded(c) && WellFormed(ev)
    ensures var (d, out) := Step(c, ev);
            && (id in d.readers <==> if ev.ReadSeg? && ev.id == id && out.Took? then out.e == Sleep
                                     else !WakesReaders(ev, out) && id in c.readers)
            && (id in d.writers <==> if ev.WriteSeg? && ev.id == id && out.Wrote? then out.e == Sleep
                                     else && !(out.Took? && (c.sent != c.got || !c.writeopen))
                                          && !(ev == CloseEnd(false) && out == Closed) && id in c.writers)
  {
    hide Reach, Gets, Room;
  }

  /** A writer sleeps only while the ring is full and somebody may read, and a reader only while nothing is in
      transit and somebody may write, unless a write of the run was killed midway. */
  lemma NoIdleSleep(es: seq<Event>, id: nat)
    requires forall o :: 0 <= o < |es| ==> WellFormed(es[o])
    ensures var outs := Steps(NewChan, es).1;
            && (WriterAsleep(es, outs, id) ==> Open(es, false) && |Sent(es, outs)| - |Got(outs)| == 512)
            && (ReaderAsleep(es, outs, id) && NoneMidway(NewChan, es) ==> Open(es, true) && Sent(es, outs) == Got(outs))
  {
    AsleepIs(es, id);
    Fifo(es);
    OpenIs(es);
    if NoneMidway(NewChan, es) {
      AlwaysServed(NewChan, es);
    }
  }

  class Ring {
    var data: array<Byte>
    var nread: Word
    var nwrite: Word
    var readopen: bool
    var writeopen: bool
    /** The page is given back to kalloc. */
    var freed: bool
    /** Every byte ever accepted from writers, and every byte ever delivered to readers. */
    ghost var accepted: seq<Byte>
    ghost var delivered: seq<Byte>
    /** Who sleeps in piperead, and who in pipewrite. */
    ghost var readers: set<nat>
    ghost var writers: set<nat>

    ghost function C(): (c: Chan)
      reads this
    {
      Chan(accepted, delivered, readopen, writeopen, freed, readers, writers)
    }

    /** What is in transit fills the cells from nread up to nwrite, counted modulo 2^32. */
    ghost predicate Valid()
      reads this, data
    {
      && data.Length == PIPESIZE && Bounded(C())
      && nwrite == |accepted| % TWO32 && nread == |delivered| % TWO32
      && (forall k :: |delivered| <= k < |accepted| ==> data[k % PIPESIZE] == accepted[k])
    }

    constructor ()
      ensures Valid() && fresh(data) && C() == NewChan
    {
      data := new Byte[PIPESIZE];
      nread, nwrite, readopen, writeopen, freed := 0, 0, true, true, false;
      accepted, delivered, readers, writers := [], [], {}, {};
    }

    /** A segment of pipewrite by process id, which has start bytes of src behind it. The first good bytes
        of src can be copied in; the process is seen as killed after alive looks. */
    method Write(id: nat, src: seq<Byte>, start: nat, good: nat, alive: nat) returns (e: End, i: nat)
      requires Valid() && start <= |src|
      modifies this`nwrite, this`accepted, this`readers, this`writers, data
      ensures Valid() && C() == Written(old(C()), WriteSeg(id, src, start, good, alive))
      ensures e == WriteEnd(old(C()), WriteSeg(id, src, start, good, alive))
      ensures i == Reach(old(C()), WriteSeg(id, src, start, good, alive))
      ensures old(Served(C())) ==>
        (Served(C()) <==> !KilledMidway(old(C()), WriteSeg(id, src, start, good, alive)))
    {
      hide Reach, Served, KilledMidway, Room;
      ghost var c, ev := C(), WriteSeg(id, src, start, good, alive);
      ServedWrite(c, ev);
      writers := writers - {id};
      i := start;
      var looks := 0;
      while i < |src|
        invariant Valid() && start <= i <= |src| && accepted == old(accepted) + src[start..i]
        invariant looks == i - start <= alive && readers == old(readers) && writers == old(writers) - {id}
        invariant i == start || (i <= good && readopen)
      {
        if !readopen || looks >= alive {
          Stops(c, ev, i);
          return Return(-1), i;
        }
        looks := looks + 1;
        FullTest();
        if nwrite == Add32(nread, PIPESIZE) {
          Stops(c, ev, i);
          readers := {};
          writers := writers + {id};
          return Sleep, i;
        }
        if i >= good {
          break;
        }
        Put(src[i]);
        assert src[start..i + 1] == src[start..i] + [src[i]];
        i := i + 1;
      }
      Stops(c, ev, i);
      readers := {};
      return Return(i), i;
    }

    /** data[nwrite++ % PIPESIZE] = ch, when there is room. */
    method Put(ch: Byte)
      requires Valid() && |accepted| - |delivered| < PIPESIZE
      modifies this`nwrite, this`accepted, data
      ensures Valid() && accepted == old(accepted) + [ch]
    {
      ghost var n := |accepted|;
      Wrapped(n, 1);
      forall k | |delivered| <= k < n
        ensures k % PIPESIZE != n % PIPESIZE
      {
        OtherCell(k, n);
      }
      data[nwrite % PIPESIZE] := ch;
      nwrite := Add32(nwrite, 1);
      accepted := accepted + [ch];
    }

    /** ch = data[nread % PIPESIZE], and nread++ if it can be copied out. */
    method Get(ok: bool) returns (ch: Byte)
      requires Valid() && |delivered| < |accepted| && writers == {}
      modifies this`nread, this`delivered
      ensures Valid() && ch == accepted[|old(delivered)|]
      ensures delivered == if ok then old(delivered) + [ch] else old(delivered)
    {
      Wrapped(|delivered|, 1);
      ch := data[nread % PIPESIZE];
      if ok {
        nread := Add32(nread, 1);
        delivered := delivered + [ch];
      }
    }

    lemma FullTest()
      requires Valid()
      ensures nwrite == Add32(nread, PIPESIZE) <==> |accepted| - |delivered| == PIPESIZE
    {
      Wrapped(|delivered|, |accepted| - |delivered|);
    }

    lemma EmptyTest()
      requires Valid()
      ensures nread == nwrite <==> |accepted| == |delivered|
      ensures |delivered| <= |accepted|
    {
      Wrapped(|delivered|, |accepted| - |delivered|);
    }

    /** piperead's copy loop: the first good bytes can be copied out. */
    method Drain(n: int, good: nat) returns (r: int, dst: seq<Byte>)
      requires Valid() && writers == {}
      modifies this`nread, this`delivered
      ensures Valid() && delivered == old(delivered) + dst
      ensures dst == Gets(old(C()), n, good) && r == GetsEnd(old(C()), n, good)
    {
      dst := [];
      var i := 0;
      ghost var c := C();
      while i < n
        invariant Valid() && 0 <= i == |dst| && delivered == old(delivered) + dst && (i <= n || i == 0) && i <= good
      {
        EmptyTest();
        if nread == nwrite {
          DrainedIs(c, n, good, dst);
          return i, dst;
        }
        var ch := Get(i < good);
        if i >= good {
          DrainedIs(c, n, good, dst);
          if i == 0 {
            i := -1;
          }
          return i, dst;
        }
        dst := dst + [ch];
        i := i + 1;
      }
      DrainedIs(c, n, good, dst);
      return i, dst;
    }

    /** A segment of piperead by process id. */
    method Read(id: nat, n: int, good: nat, killed: bool) returns (e: End, dst: seq<Byte>)
      requires Valid()
      modifies this`nread, this`delivered, this`readers, this`writers
      ensures Valid() && C() == ReadDone(old(C()), ReadSeg(id, n, good, killed))
      ensures e == ReadEnd(old(C()), ReadSeg(id, n, good, killed))
      ensures dst == Taken(old(C()), ReadSeg(id, n, good, killed))
    {
      readers := readers - {id};
      EmptyTest();
      if nread == nwrite && writeopen {
        if killed {
          return Return(-1), [];
        }
        readers := readers + {id};
        return Sleep, [];
      }
      writers := {};
      var r;
      r, dst := Drain(n, good);
      return Return(r), dst;
    }

    /** pipeclose of one end. */
    method Close(writable: bool)
      requires Valid()
      modifies this`readopen, this`writeopen, this`readers, this`writers, this`freed
      ensures Valid() && C() == ClosedAt(old(C()), writable)
    {
      if writable {
        writeopen := false;
        readers := {};
      } else {
        readopen := false;
        writers := {};
      }
      freed := !readopen && !writeopen;
    }
  }

  /** Bytes taken one by one, until there are no more to take, are the bytes Gets names. */
  lemma DrainedIs(c: Chan, n: int, good: nat, dst: seq<Byte>)
    requires Bounded(c) && c.got + dst <= c.sent && |dst| <= good && (|dst| <= n || dst == [])
    requires |dst| >= n || |dst| == good || |c.got| + |dst| == |c.sent|
    ensures dst == Gets(c, n, good)
  {
    assert dst == c.sent[|c.got|..|c.got| + |dst|];
  }

  /** Every interleaving of segments, on one ring: the ring and each segment's outcome are those of the
      channel, however often the counters wrap. */
  method Run(es: seq<Event>) returns (p: Ring, outs: seq<Out>)
    requires forall o :: 0 <= o < |es| ==> WellFormed(es[o])
    ensures fresh(p) && fresh(p.data) && p.Valid() && (p.C(), outs) == Steps(NewChan, es)
    ensures p.nwrite == Add32(p.nread, |p.accepted| - |p.delivered|)
  {
    p := new Ring();
    outs := [];
    for o := 0 to |es|
      invariant fresh(p) && fresh(p.data) && p.Valid() && (p.C(), outs) == Steps(NewChan, es[..o])
    {
      var out := Do(p, es[o]);
      outs := outs + [out];
      assert es[..o + 1][..o] == es[..o];
    }
    assert es[..|es|] == es;
    Wrapped(|p.delivered|, |p.accepted| - |p.delivered|);
  }

  /** One event on the ring. */
  method Do(p: Ring, ev: Event) returns (out: Out)
    requires p.Valid() && WellFormed(ev)
    modifies p, p.data
    ensures p.Valid() && p.data == old(p.data) && (p.C(), out) == Step(old(p.C()), ev)
  {
    if p.freed {
      return Gone;
    }
    match ev
    case WriteSeg(id, src, start, good, alive) =>
      var e, i := p.Write(id, src, start, good, alive);
      out := Wrote(e, i);
    case ReadSeg(id, n, good, killed) =>
      var e, dst := p.Read(id, n, good, killed);
      out := Took(e, dst);
    case CloseEnd(writable) =>
      p.Close(writable);
      out := Closed;
  }

  /** The case that Served leaves open does occur: a writer killed after its first byte leaves a sleeping
      reader behind a pipe with a byte in it. */
  method KilledWriter() returns (p: Ring)
    ensures p.Valid() && p.readers != {} && |p.accepted| == 1 && p.delivered == [] && !Served(p.C())
  {
    p := new Ring();
    var e, dst := p.Read(1, 1, 1, false);
    assert e.Sleep?;
    var f, i := p.Write(2, [7, 7], 0, 2, 1);
  }
}
