/** The flush handshake on top of the SPSC ring with the overwrite policy: one consumer
    thread, one producer that steals the oldest records, and any number of flushers. */
module OverwriteFlush {
  import opened RingLayout
  import opened ConsumerFlush
  import opened LogFlush
  import Ring = SpscRing
  import RingInv = SpscInvariant

  /** Entry by entry: is it a message? */
  function Kinds(resv: seq<Resv>): (log: seq<bool>)
    ensures |log| == |resv| && forall i | 0 <= i < |resv| :: log[i] == resv[i].msg.Some?
  {
    seq(|resv|, i requires 0 <= i < |resv| => resv[i].msg.Some?)
  }

  function FateOf(f: Ring.Fate, msg: bool): Fate {
    match f
    case Taken => Fate.Taken(0)
    case Skipped => Fate.Skipped
    case Stolen => if msg then Lost else Fate.Skipped
  }

  function FatesOf(fates: seq<Ring.Fate>, log: seq<bool>): (r: seq<Fate>)
    requires |fates| <= |log|
    ensures |r| == |fates| && forall i | 0 <= i < |fates| :: r[i] == FateOf(fates[i], log[i])
  {
    seq(|fates|, i requires 0 <= i < |fates| => FateOf(fates[i], log[i]))
  }

  predicate OutsideGet(st: Ring.Consumer) { st.Outside? || st.Done? }

  /** The ring and the threads; `sys.log` and `sys.fates` are the history of the ring. */
  datatype Joint = Joint(ring: Ring.State, sys: Shared)

  datatype Action =
    | RingMove(a: Ring.Action)
    | ThreadMove(branch: bool)
    | RequestFlush(f: nat)
    | PollFlush(f: nat, timeUp: bool)

  ghost predicate Agrees(j: Joint) {
    && |j.ring.fates| <= |j.ring.resv|
    && j.sys.log == Kinds(j.ring.resv) && j.sys.fates == FatesOf(j.ring.fates, j.sys.log)
    && j.sys.n == 1 && 0 in j.sys.loops && (j.sys.loops[0].InGet? <==> !OutsideGet(j.ring.con))
  }

  ghost predicate Begins(j: Joint) { Ring.Init(j.ring) && Start(j.sys) && j.sys.n == 1 }

  /** The thread after a ring step: a get that has ended hands over what it got. */
  function AfterGet(sys: Shared, con: Ring.Consumer): Loop
    requires 0 in sys.loops
  {
    if con.Done? && sys.loops[0].InGet? then
      if con.got.Some? then Hand(|sys.fates|) else ReadRequest
    else sys.loops[0]
  }

  ghost predicate Next(j: Joint, a: Action, t: Joint)
    requires j.ring.cap > 0
  {
    match a
    case RingMove(b) =>
      && Ring.Next(j.ring, b, t.ring) && !b.Get? && 0 in j.sys.loops && (b.Consume? ==> j.sys.loops[0].InGet?)
      && |t.ring.fates| <= |t.ring.resv|
      && t.sys == j.sys.(log := Kinds(t.ring.resv), fates := FatesOf(t.ring.fates, Kinds(t.ring.resv)),
                         loops := j.sys.loops[0 := AfterGet(j.sys, t.ring.con)])
    case ThreadMove(branch) =>
      && 0 in j.sys.loops && t.sys == Stepped(j.sys, 0, branch)
      && t.ring == if 0 in t.sys.loops && t.sys.loops[0].InGet? && !j.sys.loops[0].InGet?
                   then j.ring.(con := Ring.ReadDeq) else j.ring
    case RequestFlush(f) => t.ring == j.ring && Happens(j.sys, Call(f), t.sys)
    case PollFlush(f, timeUp) => t.ring == j.ring && Happens(j.sys, Poll(f, timeUp), t.sys)
  }

  ghost predicate Run(tr: seq<Joint>, acts: seq<Action>) {
    && |tr| == |acts| + 1 && Begins(tr[0])
    && forall t | 0 <= t < |acts| :: tr[t].ring.cap > 0 && Next(tr[t], acts[t], tr[t + 1])
  }

  ghost predicate Unaliased(tr: seq<Joint>, acts: seq<Action>) {
    |tr| == |acts| + 1 &&
    forall t | 0 <= t < |acts| :: tr[t].ring.cap > 0 && (acts[t].RingMove? ==> Ring.NoAlias(tr[t].ring, acts[t].a))
  }

  ghost predicate Inv(j: Joint) { RingInv.Inv(j.ring) && Agrees(j) && Kept(j.sys) }

  // ---------------------------------------------------------------- what ring steps do to the log

  /** How a ring step changes the log: it appends one record, or one leaves at the front, or
      neither; a record is taken exactly when get ends with it. */
  ghost predicate Moves(s: Ring.State, b: Ring.Action, t: Ring.State) {
    && |s.fates| <= |s.resv| && |t.fates| <= |t.resv| && Kinds(s.resv) <= Kinds(t.resv)
    && if b.Consume? then
         && Kinds(t.resv) == Kinds(s.resv) && !t.con.Outside?
         && if t.fates == s.fates then !(t.con.Done? && t.con.got.Some?)
            else
              && |s.fates| < |s.resv|
              && if s.resv[|s.fates|].msg.Some?
                 then t.fates == s.fates + [Ring.Taken] && t.con.Done? && t.con.got.Some?
                 else t.fates == s.fates + [Ring.Skipped] && t.con == Ring.ReadDeq
       else
         t.con == s.con && (t.fates == s.fates || (|s.fates| < |s.resv| && t.fates == s.fates + [Ring.Stolen]))
  }

  /** A step of get that is not its last one only changes where the consumer is. */
  lemma LookMoves(s: Ring.State, timeUp: bool)
    requires s.cap > 0 && !OutsideGet(s.con) && !s.con.Advance? && !s.con.Skip?
    ensures var t := Ring.Consumed(s, timeUp);
            t == s.(con := t.con) && !t.con.Outside? && (t.con.Done? ==> t.con.got.None?)
  {
  }

  lemma FrontIs(s: Ring.State)
    requires RingInv.Inv(s) && (s.con.Advance? || s.con.Skip?) && s.deq == s.con.d
    ensures |s.fates| < |s.resv| && (s.resv[|s.fates|].msg.Some? <==> s.con.Advance?)
  {
    assert RingInv.ConOk(s.enq, s.deq, s.resv, |s.fates|, s.con);
  }

  lemma LogIsLonger(s: Ring.State)
    requires RingInv.Inv(s)
    ensures |s.fates| <= |s.resv| && s.cap > 0
  {
  }

  lemma ConsumeMoves(s: Ring.State, timeUp: bool)
    requires RingInv.Inv(s) && !OutsideGet(s.con)
    ensures Moves(s, Ring.Consume(timeUp), Ring.Consumed(s, timeUp))
  {
    LogIsLonger(s);
    hide RingInv.Inv, Kinds;
    if s.con.Advance? || s.con.Skip? {
      if s.deq == s.con.d { FrontIs(s); }
    } else {
      LookMoves(s, timeUp);
      hide Ring.Consumed;
    }
  }

  lemma StealMoves(s: Ring.State)
    requires RingInv.Inv(s) && Ring.Stealing(s.prod)
    ensures Moves(s, Ring.Produce, Ring.StealStep(s))
  {
    assert RingInv.ProdOk(s.cap, s.enq, s.deq, s.resv, |s.fates|, s.prod);
    LogIsLonger(s);
    hide RingInv.Inv, Kinds, Load, Off, TotalLen, PadFlag, Poke;
  }

  lemma StoreMoves(s: Ring.State)
    requires RingInv.Inv(s) && s.prod.Store? && |s.resv| > 0
    ensures Moves(s, Ring.Produce, Ring.StoreStep(s, s.prod.pl, s.prod.n))
  {
    LogIsLonger(s);
    var t := Ring.StoreStep(s, s.prod.pl, s.prod.n);
    assert Kinds(t.resv) == Kinds(s.resv) by { hide RingInv.Inv, Image, Off, Poke; }
    hide RingInv.Inv, Kinds, SetPhase, Image, Off, Poke;
  }

  lemma OtherMoves(s: Ring.State)
    requires RingInv.Inv(s) && !Ring.Stealing(s.prod) && !s.prod.Store?
    ensures Moves(s, Ring.Produce, Ring.Produced(s))
  {
    LogIsLonger(s);
    hide RingInv.Inv, PlanAt, Reservation, RecordLen;
  }

  lemma ProduceMoves(s: Ring.State)
    requires RingInv.Inv(s)
    ensures Moves(s, Ring.Produce, Ring.Produced(s))
  {
    if Ring.Stealing(s.prod) {
      StealMoves(s);
    } else if s.prod.Store? {
      assert |s.resv| > 0;
      StoreMoves(s);
      hide RingInv.Inv, Ring.StoreStep, Moves;
    } else {
      OtherMoves(s);
    }
  }

  lemma RingMoves(s: Ring.State, b: Ring.Action, t: Ring.State)
    requires RingInv.Inv(s) && Ring.Next(s, b, t) && !b.Get? && (b.Consume? ==> !OutsideGet(s.con))
    ensures Moves(s, b, t)
  {
    if b.Consume? { ConsumeMoves(s, b.timeUp); }
    else if b.Produce? { ProduceMoves(s); }
  }

  // ---------------------------------------------------------------- every step is one on the log

  lemma FatesGrow(fates: seq<Ring.Fate>, more: seq<Ring.Fate>, log: seq<bool>, log': seq<bool>)
    requires |fates| <= |log| && log <= log' && |fates| + |more| <= |log| && |more| <= 1
    ensures FatesOf(fates + more, log')
            == FatesOf(fates, log) + if more == [] then [] else [FateOf(more[0], log[|fates|])]
  {
    var all := fates + more;
    forall i | 0 <= i < |all| ensures FatesOf(all, log')[i] == FateOf(all[i], log[i]) {}
  }

  lemma DroppedOne(b: bool)
    ensures FatesLeft([]) == [] && FatesLeft([b]) == [if b then Lost else Fate.Skipped]
  {
    assert [b][1..] == [];
  }

  /** The event a ring step is. */
  function EventOf(s: Ring.State, b: Ring.Action, t: Ring.State): Event {
    var left := if |t.fates| > |s.fates| then 1 else 0;
    if b.Consume? then
      var found := t.con.Done? && t.con.got.Some?;
      Dequeue(0, if found then 0 else left, found, t.con.Done?)
    else
      Enqueue(if |s.resv| <= |t.resv| then Kinds(t.resv)[|s.resv|..] else [], left)
  }

  lemma PutHappens(j: Joint, b: Ring.Action, t: Joint)
    requires Agrees(j) && j.ring.cap > 0 && Next(j, RingMove(b), t) && Moves(j.ring, b, t.ring) && !b.Consume?
    ensures Happens(j.sys, EventOf(j.ring, b, t.ring), t.sys)
  {
    var s, u := j.ring, t.ring;
    var k, log, log' := |s.fates|, Kinds(s.resv), Kinds(u.resv);
    var more: seq<Ring.Fate> := if u.fates == s.fates then [] else [Ring.Stolen];
    assert u.fates == s.fates + more;
    hide Ring.Next, Kinds, FatesOf;
    FatesGrow(s.fates, more, log, log');
    assert log' == log + log'[|log|..];
    if more == [] {
      assert log[k..k] == [];
      DroppedOne(true);
    } else {
      assert log[k..k + 1] == [log[k]];
      DroppedOne(log[k]);
    }
    assert j.sys.loops == j.sys.loops[0 := j.sys.loops[0]];
  }

  lemma GetHappens(j: Joint, b: Ring.Action, t: Joint)
    requires Agrees(j) && j.ring.cap > 0 && Next(j, RingMove(b), t) && Moves(j.ring, b, t.ring) && b.Consume?
    ensures Happens(j.sys, EventOf(j.ring, b, t.ring), t.sys)
  {
    var s, u := j.ring, t.ring;
    var k, log := |s.fates|, Kinds(s.resv);
    var more := if u.fates == s.fates then [] else [u.fates[k]];
    assert u.fates == s.fates + more;
    hide Ring.Next, FatesOf;
    FatesGrow(s.fates, more, log, log);
    assert log[k..k] == [];
    DroppedOne(false);
    if more != [] { assert log[k..k + 1] == [log[k]]; }
    hide Kinds;
    var f := FatesOf(s.fates, log);
    assert f + [] == f;
    assert log + [] == log;
  }

  lemma ThreadAgrees(j: Joint, branch: bool, t: Joint)
    requires Agrees(j) && j.ring.cap > 0 && Next(j, ThreadMove(branch), t)
    ensures Agrees(t)
  {
    hide Kinds, FatesOf;
  }

  lemma RingAgrees(j: Joint, b: Ring.Action, t: Joint)
    requires Agrees(j) && j.ring.cap > 0 && Next(j, RingMove(b), t) && Moves(j.ring, b, t.ring)
    ensures Agrees(t)
  {
    hide Kinds, FatesOf, Ring.Next;
  }

  lemma ReadDeqKeeps(s: Ring.State)
    requires RingInv.Inv(s)
    ensures RingInv.Inv(s.(con := Ring.ReadDeq))
  {
  }

  lemma NextKeeps(j: Joint, a: Action, t: Joint)
    requires Inv(j) && Next(j, a, t) && (a.RingMove? ==> Ring.NoAlias(j.ring, a.a))
    ensures Inv(t)
  {
    LogIsLonger(j.ring);
    hide RingInv.Inv, Kept, Moves, Happens, Stepped, Kinds, FatesOf;
    match a
    case RingMove(b) =>
      RingInv.NextKeeps(j.ring, b, t.ring);
      RingMoves(j.ring, b, t.ring);
      RingAgrees(j, b, t);
      if b.Consume? { GetHappens(j, b, t); } else { PutHappens(j, b, t); }
      HappensKeeps(j.sys, EventOf(j.ring, b, t.ring), t.sys);
    case ThreadMove(branch) =>
      ThreadAgrees(j, branch, t);
      StepKeeps(j.sys, 0, branch);
      ReadDeqKeeps(j.ring);
    case RequestFlush(f) =>
      HappensKeeps(j.sys, Call(f), t.sys);
      CallAgrees(j, Call(f), t);
    case PollFlush(f, timeUp) =>
      HappensKeeps(j.sys, Poll(f, timeUp), t.sys);
      CallAgrees(j, Poll(f, timeUp), t);
  }

  lemma CallAgrees(j: Joint, e: Event, t: Joint)
    requires Agrees(j) && (e.Call? || e.Poll?) && Happens(j.sys, e, t.sys) && t.ring == j.ring
    ensures Agrees(t)
  {
    hide Kinds, FatesOf;
  }

  /** A ring of any capacity and one thread can start. */
  lemma CanBegin(cap: nat) returns (j: Joint)
    requires CapOk(cap)
    ensures Begins(j) && j.ring.cap == cap
  {
    j := Joint(Ring.State(cap, 0, 0, seq(cap, _ => Plain(0)), false, 0, 0, Ring.Idle, Ring.Outside, [], [], []),
               OneThread());
  }

  lemma BeginsHolds(j: Joint)
    requires Begins(j)
    ensures Inv(j)
  {
    assert RingInv.Inv(j.ring);
    assert Kept(j.sys);
  }

  lemma {:induction false} RunKeeps(tr: seq<Joint>, acts: seq<Action>, t: nat)
    requires Run(tr, acts) && Unaliased(tr, acts) && t < |tr|
    ensures Inv(tr[t])
  {
    hide Inv, Next, Begins;
    if t == 0 {
      BeginsHolds(tr[0]);
    } else {
      RunKeeps(tr, acts, t - 1);
      NextKeeps(tr[t - 1], acts[t - 1], tr[t]);
    }
  }

  // ---------------------------------------------------------------- the theorem

  /** What flush promises under overwrite: when it has returned 0, every message put before
      its request was processed, or stolen (and so counted in `overwritten`). */
  lemma FlushCertifiesProcessedOrStolen(tr: seq<Joint>, acts: seq<Action>, t: nat, f: nat)
    requires Run(tr, acts) && Unaliased(tr, acts) && t < |tr|
    requires f in tr[t].sys.flushers && tr[t].sys.flushers[f].Flushed?
    ensures var s, u := tr[t].ring, tr[t].sys; var ticket := u.flushers[f].ticket;
            && 0 < ticket <= |u.marks| && u.marks[ticket - 1] <= |s.fates| <= |s.resv|
            && forall i | 0 <= i < u.marks[ticket - 1] && s.resv[i].msg.Some? ::
                 i in u.processed || s.fates[i] == Ring.Stolen
  {
    RunKeeps(tr, acts, t);
    var s, u := tr[t].ring, tr[t].sys;
    Certified(u, f);
    hide RingInv.Inv, Kept;
    forall i | 0 <= i < u.marks[u.flushers[f].ticket - 1] && s.resv[i].msg.Some?
      ensures i in u.processed || s.fates[i] == Ring.Stolen
    {
      assert u.log[i] && u.fates[i] == FateOf(s.fates[i], u.log[i]);
    }
  }

  /** The threads see an empty ring by comparing positions (enq read first, then deq); that
      is comparing how many records there were with how many have left. */
  lemma PositionsCount(s: Ring.State, m: nat)
    requires RingInv.Inv(s) && m <= |s.resv|
    ensures EndOf(s.resv, |s.resv|) == s.enq && EndOf(s.resv, |s.fates|) == s.deq
    ensures EndOf(s.resv, m) == s.deq <==> m == |s.fates|
  {
    var k := |s.fates|;
    if m < k {
      ResvShape(s.cap, s.resv, s.enq, m);
      TilesAscend(s.cap, s.resv, s.enq, m, k);
    }
    if k < m {
      ResvShape(s.cap, s.resv, s.enq, k);
      TilesAscend(s.cap, s.resv, s.enq, k, m);
    }
  }
}
