/** The flush theorem is about something: a run of producer, ring, consumer thread and
    flusher, step by step, in which a message is put, flush is called, the message is
    processed and flush returns. */
module FlushRun {
  import opened Options
  import opened RingLayout
  import opened ConsumerFlush
  import Ring = MpmcRing
  import Start = MpmcAccounting

  ghost predicate Reached(s: Sys) {
    exists tr: seq<Sys>, acts: seq<Action> :: Run(tr, acts) && Unaliased(tr, acts) && tr[|tr| - 1] == s
  }

  lemma ReachedNext(s: Sys, a: Action, t: Sys)
    requires Reached(s) && s.ring.cap > 0 && Next(s, a, t) && (a.RingStep? ==> Ring.NoAlias(s.ring, a.a))
    ensures Reached(t)
  {
    hide Next, Init, Ring.NoAlias;
    var tr: seq<Sys>, acts: seq<Action> :| Run(tr, acts) && Unaliased(tr, acts) && tr[|tr| - 1] == s;
    var tr', acts' := tr + [t], acts + [a];
    forall x | 0 <= x < |acts'|
      ensures tr'[x].ring.cap > 0 && Next(tr'[x], acts'[x], tr'[x + 1])
      ensures acts'[x].RingStep? ==> Ring.NoAlias(tr'[x].ring, acts'[x].a)
    {
      if x < |acts| { assert Next(tr[x], acts[x], tr[x + 1]); }
    }
    assert Run(tr', acts') && Unaliased(tr', acts') && tr'[|tr'| - 1] == t;
  }

  lemma StartReached(s: Sys)
    requires Init(s)
    ensures Reached(s)
  {
    var tr: seq<Sys>, acts: seq<Action> := [s], [];
    assert Run(tr, acts) && Unaliased(tr, acts) && tr[|tr| - 1] == s;
  }

  function NoMessage(): Msg { Msg(0, 0, 0, 0, 0, 0, 0, []) }

  function ThePlan(): Plan { Plan(NoMessage(), 7, 0, 7, false) }

  /** The threads around a ring: one consumer at the top of its loop, one flusher. */
  ghost function Around(ring: Ring.State): Sys {
    Sys(ring, 1, map[0 := Top], {}, map[0 := Resting], 0, map[0 := 0], [], map[], {})
  }

  /** A step of the producer. */
  lemma Produces(s: Sys)
    requires Reached(s) && s.ring.cap > 0 && 0 in s.ring.prods
    ensures Reached(s.(ring := Ring.Produced(s.ring, 0)))
  {
    hide Reached, Ring.Produced;
    var ring := Ring.Produced(s.ring, 0);
    assert Ring.Next(s.ring, Ring.Produce(0), ring);
    ReachedNext(s, RingStep(Ring.Produce(0)), s.(ring := ring));
  }

  lemma FreshStarts()
    ensures Init(Around(Start.FreshRing()))
  {
    Start.PutReserves(NoMessage(), ThePlan());
  }

  lemma PutReached()
    ensures Reached(Around(Ring.AtP(Start.FreshRing(), 0, Ring.TestClosed(NoMessage()))))
  {
    var ring, m := Start.FreshRing(), NoMessage();
    FreshStarts();
    StartReached(Around(ring));
    hide Reached, Init;
    assert Ring.Next(ring, Ring.Put(0, m), Ring.AtP(ring, 0, Ring.TestClosed(m)));
    ReachedNext(Around(ring), RingStep(Ring.Put(0, m)), Around(Ring.AtP(ring, 0, Ring.TestClosed(m))));
  }

  lemma ReservedReached()
    ensures Reached(Around(Start.Reserved()))
  {
    var ring, m, pl := Start.FreshRing(), NoMessage(), ThePlan();
    PutReached();
    Start.PutReserves(m, pl);
    hide Reached, Ring.Produced, Start.Reserved;
    Produces(Around(Ring.AtP(ring, 0, Ring.TestClosed(m))));
    Produces(Around(Ring.AtP(ring, 0, Ring.ReadEnq(m, 7))));
    Produces(Around(Ring.AtP(ring, 0, Ring.TestSpace(pl, false))));
    Produces(Around(Ring.AtP(ring, 0, Ring.Reserve(pl))));
  }

  // ---------------------------------------------------------------- the record is stored

  /** The ring while the producer stores the record, `n` words in. */
  ghost function Storing(n: nat, mem: seq<Word>): Ring.State {
    Ring.State(14, 7, 0, mem, false, 0, 0, None, map[0 := Ring.Store(ThePlan(), 0, n)], map[0 := Ring.Outside],
               [Reservation(14, 0, ThePlan(), n)], 0, [])
  }

  lemma StoringStarts() returns (mem: seq<Word>)
    ensures |mem| == 14 && Start.Reserved() == Storing(0, mem)
  {
    mem := Start.Reserved().mem;
    assert Start.Reserved().prods == map[0 := Ring.Store(ThePlan(), 0, 0)];
  }

  /** What has been stored so far of the words get reads. */
  predicate Holding(mem: seq<Word>, n: nat) {
    |mem| == 14 && (n > 4 ==> mem[4] == Plain(56)) && (n > 5 ==> mem[5] == Plain(0))
  }

  lemma TheImage()
    ensures Image(Content(ThePlan()), 7) == [0, 0, 0, 56, 0, 0] && Off(14, 0) == 0
    ensures forall n: nat, m: nat :: SetPhase([Reservation(14, 0, ThePlan(), n)], 0, Writing(m))
                                     == [Reservation(14, 0, ThePlan(), m)]
  {
  }

  lemma StoresWord(n: nat, mem: seq<Word>)
    requires n <= 6 && |mem| == 14
    ensures Ring.Produced(Storing(n, mem), 0)
            == Storing(n + 1, mem[n := if n == 0 then Commit(0, 0) else Plain([0, 0, 0, 56, 0, 0][n - 1])])
  {
    TheImage();
    hide Image, Off, SetPhase, Reservation;
    var s := Storing(n, mem);
    assert s.prods[0 := Ring.Store(ThePlan(), 0, n + 1)] == map[0 := Ring.Store(ThePlan(), 0, n + 1)];
  }

  /** The ring with the record published. */
  ghost function Published(mem: seq<Word>, st: Ring.Producer, kicked: bool, con: Ring.Consumer): Ring.State {
    Ring.State(14, 7, 0, mem, false, 0, 0, None, map[0 := st], map[0 := con],
               [Reservation(14, 0, ThePlan(), 0).(phase := Phase.Published, kicked := kicked)], 0, [])
  }

  lemma PublishesAndKicks(mem: seq<Word>)
    requires |mem| == 14
    ensures var mem' := mem[0 := Commit(1, 0)];
            && Ring.Produced(Storing(7, mem), 0) == Published(mem', Ring.Kick(0), false, Ring.Outside)
            && Ring.Produced(Published(mem', Ring.Kick(0), false, Ring.Outside), 0)
               == Published(mem', Ring.Producer.Idle, true, Ring.Outside)
  {
    TheImage();
    hide Image, Off;
    var s := Storing(7, mem);
    assert s.prods[0 := Ring.Kick(0)] == map[0 := Ring.Kick(0)];
    assert map[0 := Ring.Kick(0)][0 := Ring.Producer.Idle] == map[0 := Ring.Producer.Idle];
  }

  lemma {:induction false} StoreReached(n: nat, mem: seq<Word>) returns (mem': seq<Word>)
    requires n <= 7 && Holding(mem, n) && Reached(Around(Storing(n, mem)))
    ensures Holding(mem', 7) && mem'[0] == Commit(1, 0)
    ensures Reached(Around(Published(mem', Ring.Producer.Idle, true, Ring.Outside)))
    decreases 7 - n
  {
    hide Reached, Ring.Produced;
    Produces(Around(Storing(n, mem)));
    if n == 7 {
      PublishesAndKicks(mem);
      mem' := mem[0 := Commit(1, 0)];
      Produces(Around(Published(mem', Ring.Kick(0), false, Ring.Outside)));
    } else {
      StoresWord(n, mem);
      mem' := StoreReached(n + 1, mem[n := if n == 0 then Commit(0, 0) else Plain([0, 0, 0, 56, 0, 0][n - 1])]);
    }
  }

  // ---------------------------------------------------------------- get hands it out

  ghost function Front(mem: seq<Word>, ph: Phase, con: Ring.Consumer): Ring.State {
    Ring.State(14, 7, 0, mem, false, 0, 0, None, map[0 := Ring.Producer.Idle], map[0 := con],
               [Reservation(14, 0, ThePlan(), 0).(phase := ph, kicked := true)], 0, [])
  }

  /** The thread is in get and flush has been called. */
  ghost function Getting(ring: Ring.State): Sys {
    Sys(ring, 1, map[0 := InGet], {}, map[0 := WaitTail(1)], 1, map[0 := 0], [1], map[], {})
  }

  lemma GetReached(mem: seq<Word>)
    requires Reached(Around(Published(mem, Ring.Producer.Idle, true, Ring.Outside)))
    ensures Reached(Getting(Front(mem, Phase.Published, Ring.ReadDeq)))
  {
    hide Reached;
    var s := Around(Published(mem, Ring.Producer.Idle, true, Ring.Outside));
    var t := s.(flushers := map[0 := WaitTail(1)], req := 1, marks := [1]);
    assert s.flushers[0 := WaitTail(1)] == t.flushers;
    ReachedNext(s, FlushCall(0), t);
    var u := Getting(Front(mem, Phase.Published, Ring.ReadDeq));
    assert t.loops[0 := InGet] == u.loops && t.ring.cons[0 := Ring.ReadDeq] == u.ring.cons;
    ReachedNext(t, LoopStep(0, false), u);
  }

  /** A step of get that only reads. */
  lemma Looks(mem: seq<Word>, ph: Phase, a: Ring.Consumer, b: Ring.Consumer)
    requires Reached(Getting(Front(mem, ph, a)))
    requires !a.Claim? && !a.Advance? && !a.Skip? && !Ring.Parks(a) && !b.Done?
    requires b == Ring.Glance(Front(mem, ph, a), a, false)
    ensures Reached(Getting(Front(mem, ph, b)))
  {
    hide Reached, Ring.Glance;
    var s, t := Front(mem, ph, a), Front(mem, ph, b);
    assert s.cons[0 := b] == t.cons;
    assert Ring.Consumed(s, 0, false) == t;
    Consumes(Getting(s), t);
  }

  lemma Consumes(s: Sys, ring: Ring.State)
    requires Reached(s) && s.ring.cap > 0 && 0 in s.loops && s.loops[0] == InGet && 0 in s.ring.cons
    requires ring == Ring.Consumed(s.ring, 0, false) && Ring.NoAlias(s.ring, Ring.Consume(0, false))
    ensures Reached(RingDone(s, Ring.Consume(0, false), ring))
  {
    hide Reached, Ring.Consumed, Ring.NoAlias, RingDone;
    assert Ring.Next(s.ring, Ring.Consume(0, false), ring);
    ReachedNext(s, RingStep(Ring.Consume(0, false)), RingDone(s, Ring.Consume(0, false), ring));
  }

  lemma ClaimReached(mem: seq<Word>)
    requires Holding(mem, 7) && mem[0] == Commit(1, 0) && Reached(Getting(Front(mem, Phase.Published, Ring.ReadDeq)))
    ensures Reached(Getting(Front(mem[0 := Commit(2, 0)], Leased(0), Ring.ReadLen(0))))
  {
    hide Reached;
    assert Off(14, 0) == 0;
    Looks(mem, Phase.Published, Ring.ReadDeq, Ring.ReadTail(0));
    Looks(mem, Phase.Published, Ring.ReadTail(0), Ring.Consumer.Fresh(0));
    Looks(mem, Phase.Published, Ring.Consumer.Fresh(0), Ring.ReadMark(0));
    Looks(mem, Phase.Published, Ring.ReadMark(0), Ring.Gate(0));
    Looks(mem, Phase.Published, Ring.Gate(0), Ring.Claim(0));
    Claims(mem);
  }

  lemma Claims(mem: seq<Word>)
    requires Holding(mem, 7) && mem[0] == Commit(1, 0) && Reached(Getting(Front(mem, Phase.Published, Ring.Claim(0))))
    ensures Reached(Getting(Front(mem[0 := Commit(2, 0)], Leased(0), Ring.ReadLen(0))))
  {
    hide Reached;
    assert Off(14, 0) == 0;
    var s, t := Front(mem, Phase.Published, Ring.Claim(0)), Front(mem[0 := Commit(2, 0)], Leased(0), Ring.ReadLen(0));
    assert s.cons[0 := Ring.ReadLen(0)] == t.cons;
    assert Ring.Consumed(s, 0, false) == t;
    Consumes(Getting(s), t);
  }

  lemma {:induction false} CopyReached(mem: seq<Word>, words: seq<nat>) returns (copied: seq<nat>)
    requires Holding(mem, 7) && |words| <= 7 && Reached(Getting(Front(mem, Leased(0), Ring.Copy(0, 7, words))))
    ensures Reached(Getting(Front(mem, Leased(0), Ring.Advance(0, 7, copied))))
    decreases 7 - |words|
  {
    hide Reached;
    if |words| < 7 {
      var more := words + [Load(mem, Off(14, 0) + |words|).raw];
      Looks(mem, Leased(0), Ring.Copy(0, 7, words), Ring.Copy(0, 7, more));
      copied := CopyReached(mem, more);
    } else {
      copied := words;
      Looks(mem, Leased(0), Ring.Copy(0, 7, words), Ring.Advance(0, 7, words));
    }
  }

  lemma HeaderRead(mem: seq<Word>)
    requires Holding(mem, 7) && Reached(Getting(Front(mem, Leased(0), Ring.ReadLen(0))))
    ensures Reached(Getting(Front(mem, Leased(0), Ring.Copy(0, 7, []))))
  {
    hide Reached;
    assert Off(14, 0) == 0;
    Looks(mem, Leased(0), Ring.ReadLen(0), Ring.ReadFlags(0, 7));
    Looks(mem, Leased(0), Ring.ReadFlags(0, 7), Ring.Copy(0, 7, []));
  }

  /** The thread has the message; the ring is drained. */
  ghost function Taken(ring: Ring.State): Sys {
    Sys(ring, 1, map[0 := Hand(0)], {}, map[0 := WaitTail(1)], 1, map[0 := 0], [1], map[0 := 0], {})
  }

  predicate Drained(ring: Ring.State) {
    && ring.cap == 14 && ring.enq == ring.deq == 7 && ring.k == 1 && |ring.resv| == 1 && ring.resv[0].msg.Some?
    && ring.resv[0].pos == 0
  }

  lemma TakenReached(mem: seq<Word>, words: seq<nat>) returns (ring: Ring.State)
    requires Reached(Getting(Front(mem, Leased(0), Ring.Advance(0, 7, words))))
    ensures Drained(ring) && Reached(Taken(ring))
  {
    hide Reached;
    var s := Front(mem, Leased(0), Ring.Advance(0, 7, words));
    ring := Ring.Consumed(s, 0, false);
    assert s.cons[0 := Ring.Consumer.Done(Some(0))] == map[0 := Ring.Consumer.Done(Some(0))];
    Consumes(Getting(s), ring);
    assert Getting(s).loops[0 := Hand(0)] == Taken(ring).loops && map[][0 := 0] == Taken(ring).taker;
  }

  // ---------------------------------------------------------------- the thread acks, flush returns

  lemma BatchReached(ring: Ring.State)
    requires Drained(ring) && Reached(Taken(ring))
    ensures Reached(Taken(ring).(loops := map[0 := ReadRequest], processed := {0}))
  {
    hide Reached;
    var s := Taken(ring);
    var s1 := s.(loops := map[0 := AfterRecord], processed := {0});
    ReachedNext(s, LoopStep(0, false), s1) by { assert s.loops[0 := AfterRecord] == s1.loops; }
    var s2 := s1.(loops := map[0 := ReadRequest]);
    ReachedNext(s1, LoopStep(0, true), s2) by { assert s1.loops[0 := ReadRequest] == s2.loops; }
  }

  lemma ProcessReached(ring: Ring.State)
    requires Drained(ring) && Reached(Taken(ring))
    ensures Reached(Taken(ring).(loops := map[0 := Top], acks := map[0 := 1], processed := {0}))
  {
    hide Reached;
    BatchReached(ring);
    var s1 := Taken(ring).(loops := map[0 := AfterRecord], processed := {0});
    var s2 := s1.(loops := map[0 := ReadRequest]);
    var s3 := s1.(loops := map[0 := UsedTail(1)]);
    ReachedNext(s2, LoopStep(0, false), s3) by { assert s2.loops[0 := UsedTail(1)] == s3.loops; }
    var s4 := s1.(loops := map[0 := UsedHead(1, 7)]);
    ReachedNext(s3, LoopStep(0, false), s4) by { assert s3.loops[0 := UsedHead(1, 7)] == s4.loops; }
    var s5 := s1.(loops := map[0 := Ack(1)]);
    ReachedNext(s4, LoopStep(0, false), s5) by { assert s4.loops[0 := Ack(1)] == s5.loops; }
    var s6 := s1.(loops := map[0 := Top], acks := map[0 := 1]);
    ReachedNext(s5, LoopStep(0, false), s6) by { assert s5.loops[0 := Top] == s6.loops && s5.acks[0 := 1] == s6.acks; }
  }

  lemma PollReached(s: Sys)
    requires Reached(s) && Drained(s.ring) && s.n == 1 && s.flushers == map[0 := WaitTail(1)] && s.acks == map[0 := 1]
    ensures Reached(s.(flushers := map[0 := Flushed(1)]))
  {
    hide Reached;
    var s1 := s.(flushers := map[0 := WaitHead(1, 7)]);
    ReachedNext(s, FlushStep(0, false), s1) by { assert s.flushers[0 := WaitHead(1, 7)] == s1.flushers; }
    var s2 := s.(flushers := map[0 := WaitAcks(1, 0)]);
    ReachedNext(s1, FlushStep(0, false), s2) by { assert s1.flushers[0 := WaitAcks(1, 0)] == s2.flushers; }
    var s3 := s.(flushers := map[0 := WaitAcks(1, 1)]);
    ReachedNext(s2, FlushStep(0, false), s3) by { assert s2.flushers[0 := WaitAcks(1, 1)] == s3.flushers; }
    var s4 := s.(flushers := map[0 := Flushed(1)]);
    ReachedNext(s3, FlushStep(0, false), s4) by { assert s3.flushers[0 := Flushed(1)] == s4.flushers; }
  }

  /** There is an alias-free run, one ring step at a time, in which a message is put and
      published, flush is called, the thread leases, copies and processes the message, and
      flush returns. */
  lemma FlushReturns() returns (s: Sys)
    ensures Reached(s) && 0 in s.flushers && s.flushers[0] == Flushed(1) && s.marks == [1]
    ensures |s.ring.resv| == 1 && s.ring.resv[0].msg.Some? && s.ring.resv[0].pos in s.processed
  {
    hide Reached;
    ReservedReached();
    var m0 := StoringStarts();
    var m1 := StoreReached(0, m0);
    GetReached(m1);
    ClaimReached(m1);
    var m2 := m1[0 := Commit(2, 0)];
    HeaderRead(m2);
    var words := CopyReached(m2, []);
    var ring := TakenReached(m2, words);
    ProcessReached(ring);
    PollReached(Taken(ring).(loops := map[0 := Top], acks := map[0 := 1], processed := {0}));
    s := Taken(ring).(loops := map[0 := Top], acks := map[0 := 1], processed := {0}, flushers := map[0 := Flushed(1)]);
  }
}
