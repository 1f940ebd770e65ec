/** The drain after the exit flag on top of the SPSC ring with the overwrite policy. */
module OverwriteDrain {
  import opened RingLayout
  import ConsumerFlush
  import opened LogFlush
  import opened LogDrain
  import opened OverwriteFlush
  import Ring = SpscRing
  import RingInv = SpscInvariant

  // ---------------------------------------------------------------- unread records are marked

  /** Record m shows its published marker, unless it is being stolen. */
  ghost predicate MarkAt(s: Ring.State, m: nat) {
    m < |s.resv| && s.resv[m].phase == Published && !(s.prod.StealCas? && s.prod.rec == m) ==>
      s.resv[m].off < |s.mem| && s.mem[s.resv[m].off].raw == 8 * s.resv[m].pos + 1
  }

  ghost predicate Marked(s: Ring.State) {
    forall m: nat {:trigger MarkAt(s, m)} | |s.fates| <= m < |s.resv| :: MarkAt(s, m)
  }

  /** A word of the record i, which is not reused, lies outside every other unread record. */
  lemma WordApart(s: Ring.State, i: nat, m: nat, x: nat)
    requires RingInv.Inv(s) && i < |s.resv| && |s.fates| <= m < |s.resv| && i != m
    requires s.enq <= s.resv[i].pos + s.cap && s.resv[i].off <= x < s.resv[i].off + s.resv[i].len
    ensures s.resv[m].off != x && s.resv[m].off < |s.mem|
  {
    UnreadIsIntact(s, m);
    RingInv.IntactApart(s, i, m);
  }

  lemma UnreadIsIntact(s: Ring.State, m: nat)
    requires RingInv.Inv(s) && |s.fates| <= m < |s.resv|
    ensures s.enq <= s.resv[m].pos + s.cap && ResvOk(s.cap, s.resv[m])
    ensures s.resv[m].off < |s.mem| && s.resv[m].len > 0
  {
    ResvShape(s.cap, s.resv, s.enq, m);
    ResvShape(s.cap, s.resv, s.enq, |s.fates|);
    if m > |s.fates| { TilesAscend(s.cap, s.resv, s.enq, |s.fates|, m); }
  }

  lemma StoreMarks(s: Ring.State)
    requires RingInv.Inv(s) && Marked(s) && s.prod.Store?
    ensures Marked(Ring.Produced(s))
  {
    var t := Ring.Produced(s);
    var i := |s.resv| - 1;
    forall m: nat | |t.fates| <= m < |t.resv| ensures MarkAt(t, m) {
      assert MarkAt(s, m);
      StoreMark(s, i, m);
    }
  }

  lemma StoreMark(s: Ring.State, i: nat, m: nat)
    requires RingInv.Inv(s) && s.prod.Store? && i == |s.resv| - 1 && |s.fates| <= m < |s.resv| && MarkAt(s, m)
    ensures MarkAt(Ring.Produced(s), m)
  {
    var pl, n := s.prod.pl, s.prod.n;
    assert RingInv.ProdOk(s.cap, s.enq, s.deq, s.resv, |s.fates|, s.prod);
    var image := Image(Content(pl), pl.len);
    UnreadIsIntact(s, m);
    if |s.fates| <= i {
      UnreadIsIntact(s, i);
      if m != i {
        WordApart(s, i, m, if 0 < n <= |image| then s.resv[i].off + n else s.resv[i].off);
      }
    }
  }

  lemma MarkMarks(s: Ring.State)
    requires RingInv.Inv(s) && Marked(s) && s.prod.StealMark?
    ensures Marked(Ring.Produced(s))
  {
    var t := Ring.Produced(s);
    var rec := s.prod.rec;
    assert RingInv.ProdOk(s.cap, s.enq, s.deq, s.resv, |s.fates|, s.prod);
    ResvShape(s.cap, s.resv, s.enq, rec);
    forall m: nat | |t.fates| <= m < |t.resv| ensures MarkAt(t, m) {
      assert MarkAt(s, m);
      if m != rec { WordApart(s, rec, m, s.resv[rec].off); }
    }
  }

  /** Every other step leaves memory alone, and a steal that ends has passed its victim. */
  ghost predicate LeavesMarks(s: Ring.State, t: Ring.State) {
    && t.mem == s.mem && |s.fates| <= |t.fates| && s.resv <= t.resv
    && (forall m | |s.resv| <= m < |t.resv| :: t.resv[m].phase != Published)
    && (s.prod.StealCas? && s.prod.rec >= |t.fates| ==> t.prod == s.prod)
  }

  predicate CasTakes(s: Ring.State) {
    s.prod.StealCas? && s.prod.rec >= |s.fates| ==> s.prod.rec == |s.fates| && s.deq == s.prod.d
  }

  lemma StealIsOfTheFront(s: Ring.State)
    requires RingInv.Inv(s)
    ensures CasTakes(s) && s.cap > 0
  {
    assert RingInv.ProdOk(s.cap, s.enq, s.deq, s.resv, |s.fates|, s.prod);
    if s.prod.StealCas? && s.prod.rec == |s.fates| { RingInv.Front(s); }
  }

  lemma ProducerLeaves(s: Ring.State)
    requires s.cap > 0 && CasTakes(s) && !s.prod.Store? && !s.prod.StealMark?
    ensures LeavesMarks(s, Ring.Produced(s))
  {
    hide PlanAt, RecordLen, TotalLen, PadFlag, Load, Off;
    assert s.resv <= s.resv;
    if s.prod.Reserve? { assert Ring.Produced(s).resv == s.resv + [Reservation(s.cap, 0, s.prod.pl, 0)]; }
  }

  lemma OthersLeave(s: Ring.State, b: Ring.Action, t: Ring.State)
    requires RingInv.Inv(s) && Ring.Next(s, b, t)
    requires b.Produce? ==> !s.prod.Store? && !s.prod.StealMark?
    ensures LeavesMarks(s, t)
  {
    hide RingInv.Inv, Ring.Glance, Ring.Produced;
    StealIsOfTheFront(s);
    assert s.resv <= s.resv;
    if b.Produce? { ProducerLeaves(s); }
  }

  lemma LeftMark(s: Ring.State, t: Ring.State, m: nat)
    requires LeavesMarks(s, t) && |t.fates| <= m < |t.resv| && (m < |s.resv| ==> MarkAt(s, m))
    ensures MarkAt(t, m)
  {
  }

  lemma OthersMark(s: Ring.State, b: Ring.Action, t: Ring.State)
    requires RingInv.Inv(s) && Marked(s) && Ring.Next(s, b, t)
    requires b.Produce? ==> !s.prod.Store? && !s.prod.StealMark?
    ensures Marked(t)
  {
    OthersLeave(s, b, t);
    hide RingInv.Inv, Ring.Next, MarkAt;
    forall m: nat | |t.fates| <= m < |t.resv| ensures MarkAt(t, m) { LeftMark(s, t, m); }
  }

  lemma StepMarks(s: Ring.State, b: Ring.Action, t: Ring.State)
    requires RingInv.Inv(s) && Marked(s) && Ring.Next(s, b, t)
    ensures Marked(t)
  {
    if b.Produce? && s.prod.Store? { StoreMarks(s); }
    else if b.Produce? && s.prod.StealMark? { MarkMarks(s); }
    else { OthersMark(s, b, t); }
  }

  // ---------------------------------------------------------------- a quiet producer

  /** No put is under way, or one that finds the ring closed. */
  predicate NoPut(s: Ring.State) { s.prod.Idle? || (s.prod.TestClosed? && s.closed) }

  /** Get reads at deq. */
  predicate AtFront(s: Ring.State) {
    (s.con.ReadTail? || s.con.Fresh? || s.con.ReadMark?) ==> s.con.d == s.deq
  }

  lemma QuietStep(s: Ring.State, b: Ring.Action, t: Ring.State)
    requires s.cap > 0 && Ring.Next(s, b, t) && NoPut(s) && AtFront(s) && !b.Get?
    ensures AtFront(t) && (!b.Consume? ==> t.resv == s.resv && t.fates == s.fates && t.deq == s.deq)
  {
    hide TotalLen, PadFlag, Load, Off;
  }

  /** A get that ends with nothing then found the ring empty. */
  lemma EmptyGetIsEmpty(s: Ring.State, timeUp: bool)
    requires RingInv.Inv(s) && Marked(s) && NoPut(s) && AtFront(s) && !OutsideGet(s.con)
    ensures var t := Ring.Consumed(s, timeUp);
            t.con.Done? && t.con.got.None? ==> |s.fates| == |s.resv| && t.fates == s.fates
  {
    var k := |s.fates|;
    if k < |s.resv| {
      RingInv.Front(s);
      assert s.resv[k].phase == Published;
      assert MarkAt(s, k);
      hide RingInv.Inv, Marked;
    }
  }

  // ---------------------------------------------------------------- joint runs

  /** The event a joint step is on the log. */
  function EventFor(j: Joint, a: Action, t: Joint): Event {
    match a
    case RingMove(b) => EventOf(j.ring, b, t.ring)
    case ThreadMove(branch) => Thread(0, branch)
    case RequestFlush(f) => Call(f)
    case PollFlush(f, timeUp) => Poll(f, timeUp)
  }

  function Systems(tr: seq<Joint>): (r: seq<Shared>)
    ensures |r| == |tr| && forall i | 0 <= i < |tr| :: r[i] == tr[i].sys
  {
    seq(|tr|, i requires 0 <= i < |tr| => tr[i].sys)
  }

  function Events(tr: seq<Joint>, acts: seq<Action>): (r: seq<Event>)
    requires |tr| == |acts| + 1
    ensures |r| == |acts| && forall i | 0 <= i < |acts| :: r[i] == EventFor(tr[i], acts[i], tr[i + 1])
  {
    seq(|acts|, i requires 0 <= i < |acts| => EventFor(tr[i], acts[i], tr[i + 1]))
  }

  lemma StepHappens(j: Joint, a: Action, t: Joint)
    requires OverwriteFlush.Inv(j) && j.ring.cap > 0 && Next(j, a, t)
    ensures Happens(j.sys, EventFor(j, a, t), t.sys)
  {
    if a.RingMove? {
      RingMoves(j.ring, a.a, t.ring);
      hide Moves, Happens, RingInv.Inv, Kept;
      if a.a.Consume? { GetHappens(j, a.a, t); } else { PutHappens(j, a.a, t); }
    }
  }

  lemma RunIsHistory(tr: seq<Joint>, acts: seq<Action>)
    requires Run(tr, acts) && Unaliased(tr, acts)
    ensures History(Systems(tr), Events(tr, acts))
  {
    hide OverwriteFlush.Inv, Next, Happens, EventFor, Unaliased;
    forall x | 0 <= x < |acts|
      ensures Happens(Systems(tr)[x], Events(tr, acts)[x], Systems(tr)[x + 1])
    {
      RunKeeps(tr, acts, x);
      StepHappens(tr[x], acts[x], tr[x + 1]);
    }
  }

  /** From the moment the thread began leaving no put was under way that could still enter. */
  ghost predicate QuietDrain(tr: seq<Joint>, t: nat)
    requires t < |tr|
  {
    forall x | 0 <= x <= t && tr[x].sys.leaving != {} :: NoPut(tr[x].ring)
  }

  ghost predicate Draining(j: Joint) {
    && Marked(j.ring)
    && (j.sys.leaving != {} ==> 0 in j.sys.leaving)
    && (j.sys.leaving != {} && 0 in j.sys.loops && j.sys.loops[0].InGet? ==> AtFront(j.ring))
  }

  lemma DrainingKeeps(j: Joint, a: Action, t: Joint)
    requires OverwriteFlush.Inv(j) && Draining(j) && j.ring.cap > 0 && Next(j, a, t)
    requires j.sys.leaving != {} ==> NoPut(j.ring)
    ensures Draining(t)
  {
    hide RingInv.Inv, Kept, Kinds, FatesOf, Ring.Next, Marked, Happens;
    match a
    case RingMove(b) =>
      StepMarks(j.ring, b, t.ring);
      if j.sys.leaving != {} && j.sys.loops[0].InGet? { QuietStep(j.ring, b, t.ring); }
    case ThreadMove(branch) =>
      SameMarks(j.ring);
    case RequestFlush(f) => CallLeaves(j, Call(f), t);
    case PollFlush(f, timeUp) => CallLeaves(j, Poll(f, timeUp), t);
  }

  lemma SameMarks(s: Ring.State)
    requires Marked(s)
    ensures Marked(s.(con := Ring.ReadDeq))
  {
    var t := s.(con := Ring.ReadDeq);
    forall m: nat | |t.fates| <= m < |t.resv| ensures MarkAt(t, m) { assert MarkAt(s, m); }
  }

  lemma CallLeaves(j: Joint, e: Event, t: Joint)
    requires (e.Call? || e.Poll?) && Happens(j.sys, e, t.sys)
    ensures t.sys.leaving == j.sys.leaving && t.sys.loops == j.sys.loops
  {
  }

  lemma {:induction false} RunDrains(tr: seq<Joint>, acts: seq<Action>, t: nat, x: nat)
    requires Run(tr, acts) && Unaliased(tr, acts) && x <= t < |tr| && QuietDrain(tr, t)
    ensures Draining(tr[x])
  {
    hide OverwriteFlush.Inv, Next, Unaliased, Draining;
    if x == 0 {
      StartDrains(tr[0]);
    } else {
      RunDrains(tr, acts, t, x - 1);
      RunKeeps(tr, acts, x - 1);
      DrainingKeeps(tr[x - 1], acts[x - 1], tr[x]);
    }
  }

  lemma StartDrains(j: Joint)
    requires Begins(j)
    ensures Draining(j)
  {
  }

  lemma DrainsEvent(j: Joint, a: Action, t: Joint)
    requires OverwriteFlush.Inv(j) && Draining(j) && j.ring.cap > 0 && Next(j, a, t)
    requires j.sys.leaving != {} && NoPut(j.ring) && NoPut(t.ring)
    ensures DrainEvent(j.sys, EventFor(j, a, t))
  {
    hide RingInv.Inv, Kept, Marked, Happens, Stepped;
    if a.RingMove? {
      var b := a.a;
      if b.Consume? {
        EmptyGetIsEmpty(j.ring, b.timeUp);
      } else {
        QuietStep(j.ring, b, t.ring);
      }
    }
  }

  /** Main result. When the thread has stopped, and no put was under way since it began
      leaving, every message ever reserved was processed or stolen. */
  lemma DrainProcessesOrSteals(tr: seq<Joint>, acts: seq<Action>, t: nat)
    requires Run(tr, acts) && Unaliased(tr, acts) && t < |tr| && QuietDrain(tr, t)
    requires 0 in tr[t].sys.loops && tr[t].sys.loops[0] == ConsumerFlush.Stopped
    ensures var s, u := tr[t].ring, tr[t].sys;
            && |s.fates| == |s.resv|
            && forall i | 0 <= i < |s.resv| && s.resv[i].msg.Some? :: i in u.processed || s.fates[i] == Ring.Stolen
  {
    var s, u := tr[t].ring, tr[t].sys;
    var sys, evs := Systems(tr), Events(tr, acts);
    RunIsHistory(tr, acts);
    RunKeeps(tr, acts, t);
    hide RingInv.Inv, Next, Unaliased, Draining, Happens, Begins, Kept, EventFor, DrainEvent, NoPut;
    forall x | 0 <= x < t && sys[x].leaving != {} ensures DrainEvent(sys[x], evs[x]) {
      RunDrains(tr, acts, t, x);
      RunKeeps(tr, acts, x);
      StillQuiet(tr, acts, t, x);
      DrainsEvent(tr[x], acts[x], tr[x + 1]);
    }
    OneLoop(sys[t]);
    DrainProcessesAll(sys, evs, t);
    forall i | 0 <= i < |s.resv| && s.resv[i].msg.Some? ensures i in u.processed || s.fates[i] == Ring.Stolen {
      assert u.log[i] && u.fates[i] == FateOf(s.fates[i], u.log[i]);
    }
  }

  lemma OneLoop(s: Shared)
    requires Kept(s) && s.n == 1 && 0 in s.loops && s.loops[0] == ConsumerFlush.Stopped
    ensures forall c | c in s.loops :: s.loops[c] == ConsumerFlush.Stopped
  {
  }

  lemma StillQuiet(tr: seq<Joint>, acts: seq<Action>, t: nat, x: nat)
    requires Run(tr, acts) && Unaliased(tr, acts) && x < t < |tr| && QuietDrain(tr, t) && tr[x].sys.leaving != {}
    ensures NoPut(tr[x].ring) && NoPut(tr[x + 1].ring)
  {
    hide Next, Unaliased;
    RunKeeps(tr, acts, x);
    StepHappens(tr[x], acts[x], tr[x + 1]);
    LeavingStays(tr[x].sys, EventFor(tr[x], acts[x], tr[x + 1]), tr[x + 1].sys);
  }

  lemma LeavingStays(s: Shared, a: Event, t: Shared)
    requires Happens(s, a, t)
    ensures s.leaving <= t.leaving
  {
    if a.Thread? && a.c in s.loops { SteppedShape(s, a.c, a.branch); }
  }
}
