/** The flush handshake certifies processing. */
module FlushTheorem {
  import opened Options
  import opened RingLayout
  import Ring = MpmcRing
  import RingInv = MpmcInvariant
  import RingFacts = MpmcTheorems
  import opened ConsumerFlush

  // ---------------------------------------------------------------- the invariant

  predicate OutsideGet(st: Ring.Consumer) { st.Outside? || st.Done? }

  ghost predicate Shape(s: Sys) {
    && RingInv.Inv(s.ring)
    && (forall c: nat :: c in s.ring.cons <==> c < s.n) && (forall c: nat :: c in s.loops <==> c < s.n)
    && (forall c: nat :: c in s.acks <==> c < s.n)
    && (forall c | c in s.loops :: s.loops[c].InGet? <==> !OutsideGet(s.ring.cons[c]))
  }

  /** Every message passed by deq was handed to one thread, which processed it or has it
      in hand. */
  ghost predicate Taken(resv: seq<Resv>, k: nat, n: nat, loops: map<nat, Loop>, taker: map<nat, nat>,
                        processed: set<nat>)
    requires k <= |resv|
  {
    forall i {:trigger resv[i]} | 0 <= i < k && resv[i].msg.Some? :: HandledBy(resv[i].pos, n, loops, taker, processed)
  }

  ghost predicate HandledBy(p: nat, n: nat, loops: map<nat, Loop>, taker: map<nat, nat>, processed: set<nat>) {
    && p in taker && taker[p] < n && taker[p] in loops
    && (p in processed || loops[taker[p]] == Hand(p))
  }

  /** Thread c has finished all it took of the first m reservations, and all m are taken. */
  ghost predicate Clear(resv: seq<Resv>, k: nat, taker: map<nat, nat>, processed: set<nat>, c: nat, m: nat) {
    && m <= k <= |resv|
    && forall i | 0 <= i < m && resv[i].msg.Some? && resv[i].pos in taker && taker[resv[i].pos] == c ::
         resv[i].pos in processed
  }

  ghost predicate ClearAt(s: Sys, c: nat, ticket: nat) {
    && ticket <= |s.marks|
    && (ticket > 0 ==> Clear(s.ring.resv, s.ring.k, s.taker, s.processed, c, s.marks[ticket - 1]))
  }

  ghost predicate Tickets(marks: seq<nat>, req: nat, reserved: nat) {
    && |marks| == req
    && (forall x | 0 <= x < |marks| :: marks[x] <= reserved)
    && (forall x, y | 0 <= x <= y < |marks| :: marks[x] <= marks[y])
  }

  ghost predicate LoopOk(s: Sys, c: nat, st: Loop) {
    match st
    case UsedTail(r) => r <= |s.marks|
    case UsedHead(r, e) =>
      && r <= |s.marks|
      && (r > 0 ==> s.marks[r - 1] <= |s.ring.resv| && EndOf(s.ring.resv, s.marks[r - 1]) <= e)
    case Ack(r) => ClearAt(s, c, r)
    case _ => true
  }

  ghost predicate FlushOk(s: Sys, st: Flusher) {
    match st
    case WaitTail(ticket) => 0 < ticket <= |s.marks|
    case WaitHead(ticket, _) => 0 < ticket <= |s.marks|
    case WaitAcks(ticket, x) => 0 < ticket <= |s.marks| && forall c | 0 <= c < x :: ClearAt(s, c, ticket)
    case Flushed(ticket) => 0 < ticket <= |s.marks| && forall c | 0 <= c < s.n :: ClearAt(s, c, ticket)
    case Resting => true
  }

  ghost predicate Inv(s: Sys) {
    && Shape(s) && s.ring.k <= |s.ring.resv|
    && Taken(s.ring.resv, s.ring.k, s.n, s.loops, s.taker, s.processed)
    && Tickets(s.marks, s.req, |s.ring.resv|)
    && (forall c {:trigger LoopOk(s, c, s.loops[c])} | c in s.loops :: LoopOk(s, c, s.loops[c]))
    && (forall c {:trigger ClearAt(s, c, s.acks[c])} | c in s.acks :: ClearAt(s, c, s.acks[c]))
    && (forall f {:trigger FlushOk(s, s.flushers[f])} | f in s.flushers :: FlushOk(s, s.flushers[f]))
  }

  // ---------------------------------------------------------------- what only grows

  ghost predicate Grew(s: Sys, t: Sys) {
    && s.n == t.n && s.marks <= t.marks && s.processed <= t.processed
    && RingFacts.Extends(s.ring.resv, t.ring.resv) && s.ring.k <= t.ring.k <= |t.ring.resv|
    && (forall i | 0 <= i < s.ring.k && i < |s.ring.resv| && s.ring.resv[i].msg.Some?
                   && s.ring.resv[i].pos in s.taker ::
          s.ring.resv[i].pos in t.taker && t.taker[s.ring.resv[i].pos] == s.taker[s.ring.resv[i].pos])
  }

  lemma ClearStays(s: Sys, t: Sys, c: nat, ticket: nat)
    requires Inv(s) && Grew(s, t) && ClearAt(s, c, ticket)
    ensures ClearAt(t, c, ticket)
  {
    if ticket > 0 {
      var m := s.marks[ticket - 1];
      forall i | 0 <= i < m && t.ring.resv[i].msg.Some? && t.ring.resv[i].pos in t.taker
                 && t.taker[t.ring.resv[i].pos] == c
        ensures t.ring.resv[i].pos in t.processed
      {
        assert HandledBy(s.ring.resv[i].pos, s.n, s.loops, s.taker, s.processed);
      }
    }
  }

  lemma EndsStay(resv: seq<Resv>, resv': seq<Resv>, i: nat)
    requires RingFacts.Extends(resv, resv') && i <= |resv|
    ensures EndOf(resv', i) == EndOf(resv, i)
  {
  }

  lemma LoopStays(s: Sys, t: Sys, c: nat, st: Loop)
    requires Inv(s) && Grew(s, t) && LoopOk(s, c, st)
    ensures LoopOk(t, c, st)
  {
    match st
    case UsedHead(r, e) => if r > 0 { EndsStay(s.ring.resv, t.ring.resv, s.marks[r - 1]); }
    case Ack(r) => ClearStays(s, t, c, r);
    case _ =>
  }

  lemma FlushStays(s: Sys, t: Sys, st: Flusher)
    requires Inv(s) && Grew(s, t) && FlushOk(s, st)
    ensures FlushOk(t, st)
  {
    match st
    case WaitAcks(ticket, x) =>
      forall c | 0 <= c < x ensures ClearAt(t, c, ticket) { ClearStays(s, t, c, ticket); }
    case Flushed(ticket) =>
      forall c | 0 <= c < s.n ensures ClearAt(t, c, ticket) { ClearStays(s, t, c, ticket); }
    case _ =>
  }

  /** The common part of every step: what does not move stays in order. */
  lemma OthersStay(s: Sys, t: Sys)
    requires Inv(s) && Grew(s, t)
    ensures forall c {:trigger LoopOk(t, c, s.loops[c])} | c in s.loops :: LoopOk(t, c, s.loops[c])
    ensures forall c {:trigger ClearAt(t, c, s.acks[c])} | c in s.acks :: ClearAt(t, c, s.acks[c])
    ensures forall f {:trigger FlushOk(t, s.flushers[f])} | f in s.flushers :: FlushOk(t, s.flushers[f])
  {
    forall c | c in s.loops ensures LoopOk(t, c, s.loops[c]) {
      assert LoopOk(s, c, s.loops[c]);
      LoopStays(s, t, c, s.loops[c]);
    }
    forall c | c in s.acks ensures ClearAt(t, c, s.acks[c]) {
      assert ClearAt(s, c, s.acks[c]);
      ClearStays(s, t, c, s.acks[c]);
    }
    forall f | f in s.flushers ensures FlushOk(t, s.flushers[f]) {
      assert FlushOk(s, s.flushers[f]);
      FlushStays(s, t, s.flushers[f]);
    }
  }

  // ---------------------------------------------------------------- the consumer loop

  /** Seeing deq reach a tail read after request r means everything reserved before the
      request was taken; with an empty hand the thread has processed its share. */
  lemma EmptyRingClears(s: Sys, c: nat, r: nat, e: nat)
    requires Inv(s) && c in s.loops && s.loops[c] == UsedHead(r, e) && e == s.ring.deq
    ensures ClearAt(s, c, r)
  {
    assert LoopOk(s, c, s.loops[c]);
    if r > 0 {
      var m := s.marks[r - 1];
      var ring := s.ring;
      if ring.k < m {
        TilesAscend(ring.cap, ring.resv, ring.enq, ring.k, m);
        ResvShape(ring.cap, ring.resv, ring.enq, ring.k);
      }
      forall i | 0 <= i < m && ring.resv[i].msg.Some? && ring.resv[i].pos in s.taker && s.taker[ring.resv[i].pos] == c
        ensures ring.resv[i].pos in s.processed
      {
        assert HandledBy(ring.resv[i].pos, s.n, s.loops, s.taker, s.processed);
      }
    }
  }

  lemma MoveLoop(s: Sys, t: Sys, c: nat, st: Loop)
    requires Inv(s) && c in s.loops && !s.loops[c].Hand? && !s.loops[c].InGet? && !st.InGet?
    requires t == At(s, c, st) && LoopOk(s, c, st)
    ensures Inv(t)
  {
    assert Grew(s, t);
    OthersStay(s, t);
    LoopStays(s, t, c, st);
    forall b | b in t.loops ensures LoopOk(t, b, t.loops[b]) {
      if b != c { assert LoopOk(t, b, s.loops[b]); }
    }
    forall i | 0 <= i < t.ring.k && t.ring.resv[i].msg.Some?
      ensures HandledBy(t.ring.resv[i].pos, t.n, t.loops, t.taker, t.processed)
    {
      assert HandledBy(s.ring.resv[i].pos, s.n, s.loops, s.taker, s.processed);
    }
    forall f | f in t.flushers ensures FlushOk(t, t.flushers[f]) { assert FlushOk(t, s.flushers[f]); }
    forall b | b in t.acks ensures ClearAt(t, b, t.acks[b]) { assert ClearAt(t, b, s.acks[b]); }
  }

  lemma StartGetKeeps(s: Sys, c: nat)
    requires Inv(s) && c in s.loops && s.loops[c] == Top
    ensures Inv(At(s, c, InGet).(ring := Ring.AtC(s.ring, c, Ring.ReadDeq)))
  {
    var t := At(s, c, InGet).(ring := Ring.AtC(s.ring, c, Ring.ReadDeq));
    RingIsKept(s);
    hide RingInv.Inv, HandledBy, LoopOk, FlushOk, ClearAt, Tickets;
    RingInv.MoveConsumer(s.ring, c, Ring.ReadDeq);
    assert Grew(s, t);
    OthersStay(s, t);
    TakenSame(s, t, c);
    ThreadsSame(s, t, c);
  }

  /** The hand-over history reads on when thread c moves between states without a hand. */
  lemma TakenSame(s: Sys, t: Sys, c: nat)
    requires Inv(s) && t.n == s.n && c in s.loops && c in t.loops && t.loops == s.loops[c := t.loops[c]]
    requires t.taker == s.taker && s.processed <= t.processed && t.ring.resv == s.ring.resv && t.ring.k == s.ring.k
    requires s.loops[c].Hand? ==> s.loops[c].pos in t.processed
    ensures Taken(t.ring.resv, t.ring.k, t.n, t.loops, t.taker, t.processed)
  {
    forall i | 0 <= i < t.ring.k && t.ring.resv[i].msg.Some?
      ensures HandledBy(t.ring.resv[i].pos, t.n, t.loops, t.taker, t.processed)
    {
      assert HandledBy(s.ring.resv[i].pos, s.n, s.loops, s.taker, s.processed);
    }
  }

  lemma ThreadsSame(s: Sys, t: Sys, c: nat)
    requires Inv(s) && Grew(s, t) && c in s.loops && c in t.loops && t.loops == s.loops[c := t.loops[c]]
    requires LoopOk(t, c, t.loops[c])
    requires t.flushers == s.flushers && t.acks == s.acks
    ensures forall b {:trigger LoopOk(t, b, t.loops[b])} | b in t.loops :: LoopOk(t, b, t.loops[b])
    ensures forall b {:trigger ClearAt(t, b, t.acks[b])} | b in t.acks :: ClearAt(t, b, t.acks[b])
    ensures forall f {:trigger FlushOk(t, t.flushers[f])} | f in t.flushers :: FlushOk(t, t.flushers[f])
  {
    OthersStay(s, t);
    forall b | b in t.loops ensures LoopOk(t, b, t.loops[b]) {
      if b != c { assert LoopOk(t, b, s.loops[b]); }
    }
    forall b | b in t.acks ensures ClearAt(t, b, t.acks[b]) { assert ClearAt(t, b, s.acks[b]); }
    forall f | f in t.flushers ensures FlushOk(t, t.flushers[f]) { assert FlushOk(t, s.flushers[f]); }
  }

  lemma ProcessKeeps(s: Sys, c: nat, branch: bool)
    requires Inv(s) && c in s.loops && s.loops[c].Hand?
    ensures Inv(Looped(s, c, branch))
  {
    var t := Looped(s, c, branch);
    assert Grew(s, t);
    TakenSame(s, t, c);
    ThreadsSame(s, t, c);
  }

  lemma AckKeeps(s: Sys, c: nat, r: nat)
    requires Inv(s) && c in s.loops && s.loops[c] == Ack(r)
    ensures Inv(At(s, c, Home(s, c)).(acks := s.acks[c := r]))
  {
    hide RingInv.Inv;
    var u := At(s, c, Home(s, c));
    assert LoopOk(s, c, s.loops[c]);
    MoveLoop(s, u, c, Home(s, c));
    var t := u.(acks := s.acks[c := r]);
    assert ClearAt(t, c, r);
    hide LoopOk, FlushOk, Taken, Tickets;
    forall b | b in t.acks ensures ClearAt(t, b, t.acks[b]) {
      if b != c { assert ClearAt(u, b, u.acks[b]); }
    }
    forall b | b in t.loops ensures LoopOk(t, b, t.loops[b]) { assert LoopOk(u, b, u.loops[b]); LoopSame(u, t, b); }
    forall f | f in t.flushers ensures FlushOk(t, t.flushers[f]) {
      assert FlushOk(u, u.flushers[f]);
      FlusherSame(u, t, u.flushers[f]);
    }
  }

  lemma LoopSame(s: Sys, t: Sys, c: nat)
    requires c in s.loops && LoopOk(s, c, s.loops[c])
    requires t == s.(acks := t.acks, flushers := t.flushers, leaving := t.leaving)
    ensures LoopOk(t, c, s.loops[c])
  {
  }

  lemma FlusherSame(s: Sys, t: Sys, st: Flusher)
    requires FlushOk(s, st) && t == s.(acks := t.acks, flushers := t.flushers, leaving := t.leaving)
    ensures FlushOk(t, st)
  {
    match st
    case WaitAcks(ticket, x) =>
      forall c | 0 <= c < x ensures ClearAt(t, c, ticket) { assert ClearAt(s, c, ticket); }
    case Flushed(ticket) =>
      forall c | 0 <= c < s.n ensures ClearAt(t, c, ticket) { assert ClearAt(s, c, ticket); }
    case _ =>
  }

  lemma LeaveKeeps(s: Sys, leaving: set<nat>)
    requires Inv(s)
    ensures Inv(s.(leaving := leaving))
  {
    hide RingInv.Inv;
    var t := s.(leaving := leaving);
    forall b | b in t.loops ensures LoopOk(t, b, t.loops[b]) { assert LoopOk(s, b, s.loops[b]); LoopSame(s, t, b); }
    forall b | b in t.acks ensures ClearAt(t, b, t.acks[b]) { assert ClearAt(s, b, s.acks[b]); }
    forall f | f in t.flushers ensures FlushOk(t, t.flushers[f]) {
      assert FlushOk(s, s.flushers[f]);
      FlusherSame(s, t, s.flushers[f]);
    }
  }

  lemma LoopKeeps(s: Sys, c: nat, branch: bool)
    requires Inv(s) && c in s.loops
    ensures Inv(Looped(s, c, branch))
  {
    hide RingInv.Inv;
    assert LoopOk(s, c, s.loops[c]);
    match s.loops[c]
    case Top =>
      if branch && c !in s.leaving { LeaveKeeps(s, s.leaving + {c}); } else { StartGetKeeps(s, c); }
    case InGet =>
    case Hand(_) => ProcessKeeps(s, c, branch);
    case AfterRecord => MoveLoop(s, Looped(s, c, branch), c, if branch && c !in s.leaving then ReadRequest else Top);
    case ReadRequest => MoveLoop(s, Looped(s, c, branch), c, if branch then Home(s, c) else UsedTail(s.req));
    case UsedTail(r) =>
      if r > 0 { TailCovers(s, r); }
      MoveLoop(s, Looped(s, c, branch), c, UsedHead(r, s.ring.enq));
    case UsedHead(r, e) =>
      if e == s.ring.deq { EmptyRingClears(s, c, r, e); }
      MoveLoop(s, Looped(s, c, branch), c, if e == s.ring.deq then Ack(r) else Home(s, c));
    case Ack(r) => AckKeeps(s, c, r);
    case Stopped =>
  }

  /** The tail read after a request lies beyond everything reserved before it. */
  lemma TailCovers(s: Sys, r: nat)
    requires Inv(s) && 0 < r <= |s.marks|
    ensures s.marks[r - 1] <= |s.ring.resv| && EndOf(s.ring.resv, s.marks[r - 1]) <= s.ring.enq
  {
    var ring := s.ring;
    var m := s.marks[r - 1];
    if m < |ring.resv| {
      ResvShape(ring.cap, ring.resv, ring.enq, m);
      TilesAscend(ring.cap, ring.resv, ring.enq, m, |ring.resv|);
    }
  }

  // ---------------------------------------------------------------- hpu_consumer_flush

  lemma MoveFlusher(s: Sys, f: nat, st: Flusher)
    requires Inv(s) && f in s.flushers && FlushOk(s, st)
    ensures Inv(AtF(s, f, st))
  {
    var t := AtF(s, f, st);
    forall g | g in t.flushers ensures FlushOk(t, t.flushers[g]) {
      if g != f { assert FlushOk(s, s.flushers[g]); }
      FlusherSame(s, t, t.flushers[g]);
    }
    forall b | b in t.loops ensures LoopOk(t, b, t.loops[b]) { assert LoopOk(s, b, s.loops[b]); LoopSame(s, t, b); }
    forall b | b in t.acks ensures ClearAt(t, b, t.acks[b]) { assert ClearAt(s, b, s.acks[b]); }
  }

  lemma LaterTicketClears(s: Sys, c: nat, ticket: nat, later: nat)
    requires Inv(s) && 0 < ticket <= later && ClearAt(s, c, later)
    ensures ClearAt(s, c, ticket)
  {
  }

  lemma FlushStepKeeps(s: Sys, f: nat, timeUp: bool)
    requires Inv(s) && f in s.flushers
    ensures Inv(Flushing(s, f, timeUp))
  {
    hide RingInv.Inv;
    var st := s.flushers[f];
    assert FlushOk(s, st);
    match st
    case WaitTail(k) => MoveFlusher(s, f, WaitHead(k, s.ring.enq));
    case WaitHead(k, e) =>
      MoveFlusher(s, f, if e == s.ring.deq then WaitAcks(k, 0) else if timeUp then Resting else WaitTail(k));
    case WaitAcks(k, x) =>
      if x >= s.n {
        MoveFlusher(s, f, Flushed(k));
      } else if s.acks[x] >= k {
        assert ClearAt(s, x, s.acks[x]);
        LaterTicketClears(s, x, k, s.acks[x]);
        MoveFlusher(s, f, WaitAcks(k, x + 1));
      } else {
        MoveFlusher(s, f, if timeUp then Resting else WaitTail(k));
      }
    case _ =>
  }

  lemma FlushCallKeeps(s: Sys, f: nat)
    requires Inv(s) && f in s.flushers
    ensures Inv(AtF(s, f, WaitTail(s.req + 1)).(req := s.req + 1, marks := s.marks + [|s.ring.resv|]))
  {
    var u := s.(req := s.req + 1, marks := s.marks + [|s.ring.resv|]);
    assert Grew(s, u);
    OthersStay(s, u);
    assert Inv(u);
    MoveFlusher(u, f, WaitTail(s.req + 1));
  }

  // ---------------------------------------------------------------- ring steps

  lemma ProducerLeavesConsumers(r: Ring.State, p: nat)
    requires r.cap > 0 && p in r.prods
    ensures var r' := Ring.Produced(r, p);
            r'.k == r.k && r'.cons.Keys == r.cons.Keys
            && forall c | c in r.cons :: OutsideGet(r'.cons[c]) == OutsideGet(r.cons[c])
  {
    if r.prods[p].Store? {
      assert Ring.Produced(r, p) == Ring.StoreStep(r, p, r.prods[p].pl, r.prods[p].rec, r.prods[p].n);
    } else if r.prods[p].Reserve? {
      assert Ring.Produced(r, p) == Ring.ReserveStep(r, p, r.prods[p].pl);
    }
  }

  lemma QuietConsumers(r: Ring.State, b: Ring.Action, r': Ring.State)
    requires r.cap > 0 && Ring.Next(r, b, r') && !b.Get? && !b.Consume?
    ensures r'.k == r.k && r'.cons.Keys == r.cons.Keys
    ensures forall c | c in r.cons :: OutsideGet(r'.cons[c]) == OutsideGet(r.cons[c])
  {
    if b.Produce? { ProducerLeavesConsumers(r, b.p); }
  }

  /** A ring step that is not a deq CAS passes nothing. */
  lemma QuietRingKeeps(s: Sys, b: Ring.Action, ring: Ring.State)
    requires Inv(s) && Ring.Next(s.ring, b, ring) && Ring.NoAlias(s.ring, b) && !b.Get? && !b.Consume?
    ensures Inv(RingDone(s, b, ring))
  {
    var t := s.(ring := ring);
    RingInv.NextKeeps(s.ring, b, ring);
    RingFacts.StepGrows(s.ring, b, ring);
    QuietConsumers(s.ring, b, ring);
    assert Shape(t) by {
      forall c: nat ensures c in t.ring.cons <==> c < t.n { assert c in ring.cons <==> c in s.ring.cons; }
    }
    RingMoved(s, t);
  }

  lemma RingMoved(s: Sys, t: Sys)
    requires Inv(s) && t == s.(ring := t.ring) && Shape(t) && RingFacts.Grows(s.ring, t.ring) && t.ring.k == s.ring.k
    ensures Inv(t)
  {
    assert Grew(s, t);
    OthersStay(s, t);
    forall i | 0 <= i < t.ring.k && t.ring.resv[i].msg.Some?
      ensures HandledBy(t.ring.resv[i].pos, t.n, t.loops, t.taker, t.processed)
    {
      assert HandledBy(s.ring.resv[i].pos, s.n, s.loops, s.taker, s.processed);
    }
  }

  lemma ConsumerLooks(r: Ring.State, c: nat, timeUp: bool)
    requires r.cap > 0 && c in r.cons && !OutsideGet(r.cons[c]) && !r.cons[c].Advance? && !r.cons[c].Skip?
    ensures var r' := Ring.Consumed(r, c, timeUp);
            r'.k == r.k && r'.cons.Keys == r.cons.Keys && r'.cons == r.cons[c := r'.cons[c]]
            && (r'.cons[c].Done? ==> r'.cons[c].got.None?) && !r'.cons[c].Outside?
  {
    if r.cons[c].Claim? {
      assert Ring.Consumed(r, c, timeUp) == Ring.ClaimStep(r, c, r.cons[c].d);
    } else {
      RingFacts.ConsumerTouches(r, c, timeUp);
    }
  }

  lemma LookDone(s: Sys, c: nat, timeUp: bool, ring: Ring.State)
    requires c in s.loops && s.loops[c].InGet? && c in ring.cons
    requires ring.cons[c].Done? ==> ring.cons[c].got.None?
    ensures RingDone(s, Ring.Consume(c, timeUp), ring)
            == s.(ring := ring, loops := s.loops[c := if ring.cons[c].Done? then ReadRequest else InGet])
  {
    assert s.loops[c := s.loops[c]] == s.loops;
  }

  lemma LookKeeps(s: Sys, c: nat, timeUp: bool)
    requires Inv(s) && c in s.loops && s.loops[c].InGet? && Ring.NoAlias(s.ring, Ring.Consume(c, timeUp))
    requires !s.ring.cons[c].Advance? && !s.ring.cons[c].Skip?
    ensures Inv(RingDone(s, Ring.Consume(c, timeUp), Ring.Consumed(s.ring, c, timeUp)))
  {
    var ring := Ring.Consumed(s.ring, c, timeUp);
    assert RingInv.Inv(ring) by { RingInv.ConsumerKeeps(s.ring, c, timeUp); }
    assert RingFacts.Grows(s.ring, ring) by { RingFacts.ConsumerGrows(s.ring, c, timeUp); }
    ConsumerLooks(s.ring, c, timeUp);
    LookDone(s, c, timeUp, ring);
    LookMoved(s, s.(ring := ring, loops := s.loops[c := if ring.cons[c].Done? then ReadRequest else InGet]), c);
  }

  lemma LookMoved(s: Sys, t: Sys, c: nat)
    requires Inv(s) && c in s.loops && s.loops[c].InGet? && c in t.ring.cons && RingInv.Inv(t.ring)
    requires RingFacts.Grows(s.ring, t.ring) && t.ring.k == s.ring.k && t.ring.cons == s.ring.cons[c := t.ring.cons[c]]
    requires c in t.loops && t.loops == s.loops[c := t.loops[c]] && t == s.(ring := t.ring, loops := t.loops)
    requires if OutsideGet(t.ring.cons[c]) then t.loops[c] == ReadRequest else t.loops[c] == InGet
    ensures Inv(t)
  {
    hide RingInv.Inv;
    assert Grew(s, t);
    LookTaken(s, t, c);
    ThreadsSame(s, t, c);
  }

  lemma LookTaken(s: Sys, t: Sys, c: nat)
    requires Inv(s) && Grew(s, t) && c in s.loops && c in t.loops && t.loops == s.loops[c := t.loops[c]]
    requires s.loops[c].InGet? && t.taker == s.taker && t.ring.k == s.ring.k
    ensures Taken(t.ring.resv, t.ring.k, t.n, t.loops, t.taker, t.processed)
  {
    forall i | 0 <= i < t.ring.k && t.ring.resv[i].msg.Some?
      ensures HandledBy(t.ring.resv[i].pos, t.n, t.loops, t.taker, t.processed)
    {
      assert HandledBy(s.ring.resv[i].pos, s.n, s.loops, s.taker, s.processed);
    }
  }

  /** A deq CAS: the record at the front goes to thread c, or is a pad. */
  lemma DeqEffect(r: Ring.State, c: nat, timeUp: bool)
    requires RingInv.Inv(r) && c in r.cons && (r.cons[c].Advance? || r.cons[c].Skip?)
    ensures var r' := Ring.Consumed(r, c, timeUp);
            && r.k < |r.resv| && r'.k == r.k + 1 && r'.resv == r.resv && r'.cons == r.cons[c := r'.cons[c]]
            && (if r.cons[c].Advance? then r.resv[r.k].msg.Some? && r'.cons[c] == Ring.Done(Some(r.resv[r.k].pos))
                else r.resv[r.k].msg.None? && r'.cons[c] == Ring.ReadDeq)
  {
    assert RingInv.ConOk(r.enq, r.deq, r.resv, r.k, c, r.cons[c]);
  }

  lemma InGetIsInside(s: Sys, c: nat)
    requires Inv(s) && c in s.loops && s.loops[c].InGet?
    ensures c in s.ring.cons && s.ring.cap > 0
  {
    assert LoopOk(s, c, s.loops[c]);
  }

  lemma FreshPosition(s: Sys, i: nat)
    requires Inv(s) && i < s.ring.k < |s.ring.resv|
    ensures s.ring.resv[i].pos != s.ring.resv[s.ring.k].pos
  {
    var r := s.ring;
    ResvShape(r.cap, r.resv, r.enq, r.k);
    ResvShape(r.cap, r.resv, r.enq, i);
    TilesAscend(r.cap, r.resv, r.enq, i, r.k);
  }

  lemma DeqTaken(s: Sys, t: Sys, c: nat)
    requires Inv(s) && c in s.loops && s.loops[c].InGet? && c in t.loops && t.loops == s.loops[c := t.loops[c]]
    requires s.ring.k < |s.ring.resv| && t.ring.resv == s.ring.resv && t.ring.k == s.ring.k + 1
    requires t.n == s.n && t.processed == s.processed
    requires if s.ring.resv[s.ring.k].msg.Some?
             then t.taker == s.taker[s.ring.resv[s.ring.k].pos := c] && t.loops[c] == Hand(s.ring.resv[s.ring.k].pos)
             else t.taker == s.taker
    ensures Taken(t.ring.resv, t.ring.k, t.n, t.loops, t.taker, t.processed)
    ensures forall i | 0 <= i < s.ring.k && s.ring.resv[i].msg.Some? && s.ring.resv[i].pos in s.taker ::
              s.ring.resv[i].pos in t.taker && t.taker[s.ring.resv[i].pos] == s.taker[s.ring.resv[i].pos]
  {
    forall i | 0 <= i < s.ring.k && s.ring.resv[i].msg.Some?
      ensures HandledBy(t.ring.resv[i].pos, t.n, t.loops, t.taker, t.processed)
      ensures s.ring.resv[i].pos in t.taker && t.taker[s.ring.resv[i].pos] == s.taker[s.ring.resv[i].pos]
    {
      assert HandledBy(s.ring.resv[i].pos, s.n, s.loops, s.taker, s.processed);
      FreshPosition(s, i);
    }
  }

  lemma DeqKeeps(s: Sys, c: nat, timeUp: bool)
    requires Inv(s) && c in s.loops && s.loops[c].InGet?
    requires s.ring.cons[c].Advance? || s.ring.cons[c].Skip?
    ensures Inv(RingDone(s, Ring.Consume(c, timeUp), Ring.Consumed(s.ring, c, timeUp)))
  {
    InGetIsInside(s, c);
    var ring := Ring.Consumed(s.ring, c, timeUp);
    var t := RingDone(s, Ring.Consume(c, timeUp), ring);
    RingIsKept(s);
    hide Inv, RingInv.Inv, RingFacts.Grows, RingDone, Ring.Consumed;
    RingInv.ConsumerKeeps(s.ring, c, timeUp);
    RingFacts.ConsumerGrows(s.ring, c, timeUp);
    DeqEffect(s.ring, c, timeUp);
    DeqDone(s, c, timeUp, ring);
    DeqMoved(s, t, c);
  }

  /** What the thread makes of it: the message goes into its hand, a pad keeps it in get. */
  lemma DeqDone(s: Sys, c: nat, timeUp: bool, ring: Ring.State)
    requires c in s.loops && s.loops[c].InGet? && c in ring.cons && s.ring.k < |s.ring.resv|
    requires if s.ring.resv[s.ring.k].msg.Some? then ring.cons[c] == Ring.Done(Some(s.ring.resv[s.ring.k].pos))
             else ring.cons[c] == Ring.ReadDeq
    ensures var t := RingDone(s, Ring.Consume(c, timeUp), ring); var p := s.ring.resv[s.ring.k].pos;
            && t == s.(ring := ring, loops := t.loops, taker := t.taker)
            && c in t.loops && t.loops == s.loops[c := t.loops[c]]
            && (if s.ring.resv[s.ring.k].msg.Some? then t.taker == s.taker[p := c] && t.loops[c] == Hand(p)
                else t.taker == s.taker && t.loops[c] == InGet)
  {
    assert s.loops[c := s.loops[c]] == s.loops;
  }

  lemma RingIsKept(s: Sys)
    requires Inv(s)
    ensures RingInv.Inv(s.ring) && s.ring.cap > 0
  {
  }

  lemma DeqMoved(s: Sys, t: Sys, c: nat)
    requires Inv(s) && c in s.loops && s.loops[c].InGet? && c in t.ring.cons && RingInv.Inv(t.ring)
    requires RingFacts.Grows(s.ring, t.ring) && t.ring.cons == s.ring.cons[c := t.ring.cons[c]]
    requires s.ring.k < |s.ring.resv| && t.ring.k == s.ring.k + 1 && t.ring.resv == s.ring.resv
    requires c in t.loops && t.loops == s.loops[c := t.loops[c]]
    requires t == s.(ring := t.ring, loops := t.loops, taker := t.taker)
    requires if s.ring.resv[s.ring.k].msg.Some?
             then t.taker == s.taker[s.ring.resv[s.ring.k].pos := c] && t.loops[c] == Hand(s.ring.resv[s.ring.k].pos)
                  && OutsideGet(t.ring.cons[c])
             else t.taker == s.taker && t.loops[c] == InGet && !OutsideGet(t.ring.cons[c])
    ensures Inv(t)
  {
    hide RingInv.Inv;
    DeqTaken(s, t, c);
    assert Grew(s, t);
    ThreadsSame(s, t, c);
  }

  lemma NextKeeps(s: Sys, a: Action, t: Sys)
    requires Inv(s) && Next(s, a, t) && (a.RingStep? ==> Ring.NoAlias(s.ring, a.a))
    ensures Inv(t)
  {
    match a
    case RingStep(b) =>
      var ring: Ring.State :| Ring.Next(s.ring, b, ring) && t == RingDone(s, b, ring);
      if !b.Consume? { QuietRingKeeps(s, b, ring); }
      else if s.ring.cons[b.c].Advance? || s.ring.cons[b.c].Skip? { DeqKeeps(s, b.c, b.timeUp); }
      else { LookKeeps(s, b.c, b.timeUp); }
    case LoopStep(c, branch) => LoopKeeps(s, c, branch);
    case FlushCall(f) => FlushCallKeeps(s, f);
    case FlushStep(f, timeUp) => FlushStepKeeps(s, f, timeUp);
  }

  lemma InitHolds(s: Sys)
    requires Init(s)
    ensures Inv(s)
  {
    RingInv.InitKeeps(s.ring);
    hide RingInv.Inv;
  }

  lemma {:induction false} RunKeeps(tr: seq<Sys>, acts: seq<Action>, t: nat)
    requires Run(tr, acts) && Unaliased(tr, acts) && t < |tr|
    ensures Inv(tr[t])
  {
    hide Inv, Next;
    if t == 0 {
      InitHolds(tr[0]);
    } else {
      RunKeeps(tr, acts, t - 1);
      NextKeeps(tr[t - 1], acts[t - 1], tr[t]);
    }
  }

  // ---------------------------------------------------------------- the theorem

  /** What flush promises: when it has returned 0, every message reserved before its
      request (so every message whose put had succeeded) has been processed. */
  lemma FlushCertifiesProcessing(tr: seq<Sys>, acts: seq<Action>, t: nat, f: nat)
    requires Run(tr, acts) && Unaliased(tr, acts) && t < |tr|
    requires f in tr[t].flushers && tr[t].flushers[f].Flushed? && tr[t].n > 0
    ensures var s := tr[t]; var ticket := s.flushers[f].ticket;
            && 0 < ticket <= |s.marks|
            && forall i | 0 <= i < s.marks[ticket - 1] ::
                 i < |s.ring.resv| && (s.ring.resv[i].msg.Some? ==> s.ring.resv[i].pos in s.processed)
  {
    RunKeeps(tr, acts, t);
    var s := tr[t];
    var ticket := s.flushers[f].ticket;
    assert FlushOk(s, s.flushers[f]);
    assert ClearAt(s, 0, ticket);
    forall i | 0 <= i < s.marks[ticket - 1] && s.ring.resv[i].msg.Some? ensures s.ring.resv[i].pos in s.processed {
      assert HandledBy(s.ring.resv[i].pos, s.n, s.loops, s.taker, s.processed);
      assert ClearAt(s, s.taker[s.ring.resv[i].pos], ticket);
    }
  }

  /** The mark of a request counts exactly what was reserved when it was made. */
  lemma RequestMarksReservations(tr: seq<Sys>, acts: seq<Action>, t: nat, f: nat)
    requires Run(tr, acts) && Unaliased(tr, acts) && t < |acts| && acts[t] == FlushCall(f)
    ensures tr[t + 1].flushers[f] == WaitTail(|tr[t + 1].marks|)
    ensures |tr[t + 1].marks| > 0 && tr[t + 1].marks[|tr[t + 1].marks| - 1] == |tr[t].ring.resv|
  {
    RunKeeps(tr, acts, t);
    assert Next(tr[t], acts[t], tr[t + 1]);
  }
}
