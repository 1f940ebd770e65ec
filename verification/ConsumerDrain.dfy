/** The drain after the exit flag: a consumer thread stops only after a get it began since
    then found nothing, and when all threads have stopped and no put was in progress
    meanwhile, every message has been processed. */
module ConsumerDrain {
  import opened Options
  import opened RingLayout
  import Ring = MpmcRing
  import RingInv = MpmcInvariant
  import RingFacts = MpmcTheorems
  import opened ConsumerFlush
  import opened FlushTheorem

  // ---------------------------------------------------------------- the last get

  /** Thread c, already leaving, entered get with step i, was in it up to step j, and with
      that step get ended and had found nothing. */
  ghost predicate EmptyGet(tr: seq<Sys>, acts: seq<Action>, c: nat, i: nat, j: nat) {
    && |tr| == |acts| + 1 && i < j < |acts|
    && c in tr[i].leaving && c in tr[i].loops && tr[i].loops[c] == Top
    && (forall x | i < x <= j :: c in tr[x].loops && tr[x].loops[c] == InGet)
    && acts[j].RingStep? && acts[j].a.Consume? && acts[j].a.c == c
    && c in tr[j + 1].ring.cons && tr[j + 1].ring.cons[c] == Ring.Done(None)
  }

  /** What a step can do to thread c. */
  lemma StepOf(s: Sys, a: Action, t: Sys, c: nat)
    requires s.ring.cap > 0 && Next(s, a, t) && c in t.loops
    ensures c in s.loops
    ensures t.loops[c] != s.loops[c] && s.loops[c] == InGet ==>
              a.RingStep? && a.a.Consume? && a.a.c == c && c in t.ring.cons && t.ring.cons[c].Done?
              && (t.ring.cons[c].got.None? <==> t.loops[c] == ReadRequest) && t.leaving == s.leaving
    ensures t.loops[c] != s.loops[c] && s.loops[c] != InGet ==>
              a.LoopStep? && a.c == c && t == Looped(s, c, a.branch)
    ensures c in t.leaving && c !in s.leaving ==> s.loops[c] == Top == t.loops[c]
  {
    if a.LoopStep? && a.c in s.loops && a.c != c { OtherThread(s, a.c, a.branch, c); }
    if a.RingStep? { hide Ring.Next; }
  }

  lemma LoopedShape(s: Sys, b: nat, branch: bool)
    requires b in s.loops
    ensures var t := Looped(s, b, branch);
            && b in t.loops && t.loops == s.loops[b := t.loops[b]]
            && (t.leaving == s.leaving || t.leaving == s.leaving + {b})
            && t.n == s.n && t.marks == s.marks && t.ring.resv == s.ring.resv && t.ring.prods == s.ring.prods
  {
    assert s.loops == s.loops[b := s.loops[b]];
  }

  lemma OtherThread(s: Sys, b: nat, branch: bool, c: nat)
    requires b in s.loops && b != c
    ensures var t := Looped(s, b, branch);
            (c in t.loops <==> c in s.loops) && (c in s.loops ==> t.loops[c] == s.loops[c])
            && (c in t.leaving <==> c in s.leaving)
  {
    LoopedShape(s, b, branch);
    hide Looped;
  }

  lemma {:induction false} GetBegan(tr: seq<Sys>, acts: seq<Action>, t: nat, c: nat) returns (i: nat)
    requires Run(tr, acts) && t < |tr| && c in tr[t].loops && tr[t].loops[c] == InGet && c in tr[t].leaving
    ensures i < t && c in tr[i].leaving && c in tr[i].loops && tr[i].loops[c] == Top
    ensures forall x | i < x <= t :: c in tr[x].loops && tr[x].loops[c] == InGet
  {
    assert t > 0;
    var s, a := tr[t - 1], acts[t - 1];
    assert Next(s, a, tr[t]);
    StepOf(s, a, tr[t], c);
    hide Next;
    if s.loops[c] == InGet { i := GetBegan(tr, acts, t - 1, c); }
    else { i := t - 1; }
  }

  predicate Late(st: Loop) { st.ReadRequest? || st.UsedTail? || st.UsedHead? || st.Ack? || st.Stopped? }

  lemma {:induction false} LateAfterEmptyGet(tr: seq<Sys>, acts: seq<Action>, t: nat, c: nat) returns (i: nat, j: nat)
    requires Run(tr, acts) && t < |tr| && c in tr[t].loops && Late(tr[t].loops[c]) && c in tr[t].leaving
    ensures j < t && EmptyGet(tr, acts, c, i, j)
  {
    assert t > 0;
    var s, a := tr[t - 1], acts[t - 1];
    assert Next(s, a, tr[t]);
    StepOf(s, a, tr[t], c);
    hide Next;
    if Late(s.loops[c]) {
      i, j := LateAfterEmptyGet(tr, acts, t - 1, c);
    } else {
      i := GetBegan(tr, acts, t - 1, c);
      j := t - 1;
    }
  }

  lemma {:induction false} StoppedIsLeaving(tr: seq<Sys>, acts: seq<Action>, t: nat, c: nat)
    requires Run(tr, acts) && t < |tr| && c in tr[t].loops && tr[t].loops[c] == Stopped
    ensures c in tr[t].leaving
  {
    assert t > 0;
    var s, a := tr[t - 1], acts[t - 1];
    assert Next(s, a, tr[t]);
    StepOf(s, a, tr[t], c);
    if s.loops[c] == Stopped {
      StoppedIsLeaving(tr, acts, t - 1, c);
      LeavingStays(s, a, tr[t]);
    }
  }

  lemma LeavingStays(s: Sys, a: Action, t: Sys)
    requires s.ring.cap > 0 && Next(s, a, t)
    ensures s.leaving <= t.leaving && s.n == t.n
  {
  }

  /** A thread is stopped only after a get that it entered since it began leaving found
      nothing. */
  lemma StoppedAfterEmptyGet(tr: seq<Sys>, acts: seq<Action>, t: nat, c: nat) returns (i: nat, j: nat)
    requires Run(tr, acts) && t < |tr| && c in tr[t].loops && tr[t].loops[c] == Stopped
    ensures j < t && EmptyGet(tr, acts, c, i, j)
  {
    StoppedIsLeaving(tr, acts, t, c);
    i, j := LateAfterEmptyGet(tr, acts, t, c);
  }

  // ---------------------------------------------------------------- what the last get saw

  /** No put is in progress, apart from those that a closed ring is about to drop. */
  predicate NoPutIn(r: Ring.State) {
    forall p | p in r.prods :: r.prods[p] == Ring.Producer.Idle || (r.closed && r.prods[p].TestClosed?)
  }

  predicate NoPut(s: Sys) { NoPutIn(s.ring) }

  /** Position d is where entry m starts, or the end of the log, deq has reached it, and the
      first word of the entry is a marker that is not below that of d. */
  ghost predicate Watched(r: Ring.State, d: nat, m: nat) {
    && r.cap > 0 && m <= r.k && m <= |r.resv| && d == EndOf(r.resv, m) && r.enq <= d + r.cap
    && (m < |r.resv| ==> Load(r.mem, Off(r.cap, d)).raw >= 8 * d + 1)
  }

  ghost predicate Seen(r: Ring.State, d: nat) { exists m: nat :: Watched(r, d, m) }

  /** What a get that was entered with no put in progress knows. */
  ghost predicate Sees(r: Ring.State, st: Ring.Consumer) {
    match st
    case ReadTail(d) => Seen(r, d)
    case Fresh(d) => Seen(r, d) && d < r.enq
    case ReadMark(d) => Seen(r, d) && d < r.enq
    case NothingThere => r.k == |r.resv|
    case Done(got) => got.None? ==> r.k == |r.resv|
    case _ => true
  }

  /** A step of the ring with no put in progress before and after: nothing enters, and only
      the marker of the front entry can change. */
  ghost predicate Quiet(r: Ring.State, q: Ring.State) {
    && q.cap == r.cap > 0 && q.enq == r.enq && |q.resv| == |r.resv| && r.k <= q.k <= |q.resv|
    && (forall i | 0 <= i < |r.resv| :: q.resv[i].pos == r.resv[i].pos && q.resv[i].len == r.resv[i].len)
    && (q.mem == r.mem
        || (r.k < |r.resv| && q.mem == Poke(r.mem, Off(r.cap, r.resv[r.k].pos), Commit(8 * r.resv[r.k].pos + 2, r.k))))
  }

  lemma ProduceQuiet(r: Ring.State, p: nat)
    requires r.cap > 0 && p in r.prods && NoPutIn(r) && r.k <= |r.resv|
    ensures Quiet(r, Ring.Produced(r, p))
  {
  }

  lemma ConsumeQuiet(r: Ring.State, c: nat, timeUp: bool)
    requires RingInv.Inv(r) && c in r.cons && Ring.NoAlias(r, Ring.Consume(c, timeUp))
    ensures Quiet(r, Ring.Consumed(r, c, timeUp))
  {
    var st := r.cons[c];
    if st.Claim? {
      ClaimQuiet(r, c);
    } else if st.Advance? || st.Skip? {
      DeqEffect(r, c, timeUp);
      KIsIn(r);
      hide RingInv.Inv;
    } else {
      KIsIn(r);
      hide RingInv.Inv;
      RingFacts.ConsumerTouches(r, c, timeUp);
    }
  }

  lemma KIsIn(r: Ring.State)
    requires RingInv.Inv(r)
    ensures r.k <= |r.resv| && r.cap > 0
  {
  }

  lemma ClaimQuiet(r: Ring.State, c: nat)
    requires RingInv.Inv(r) && c in r.cons && r.cons[c].Claim? && Ring.NoAlias(r, Ring.Consume(c, false))
    ensures Quiet(r, Ring.ClaimStep(r, c, r.cons[c].d))
  {
    var d := r.cons[c].d;
    KIsIn(r);
    if Load(r.mem, Off(r.cap, d)).raw == 8 * d + 1 { RingInv.ClaimFindsFront(r, c, d); }
    hide RingInv.Inv;
  }

  lemma RingQuiet(r: Ring.State, b: Ring.Action, q: Ring.State)
    requires RingInv.Inv(r) && Ring.Next(r, b, q) && Ring.NoAlias(r, b)
    requires NoPutIn(r)
    ensures Quiet(r, q)
  {
    KIsIn(r);
    match b
    case Produce(p) => ProduceQuiet(r, p);
    case Consume(c, timeUp) => ConsumeQuiet(r, c, timeUp);
    case _ => hide RingInv.Inv;
  }

  lemma EndsStay(r: Ring.State, q: Ring.State, m: nat)
    requires Quiet(r, q) && m <= |r.resv|
    ensures EndOf(q.resv, m) == EndOf(r.resv, m)
  {
  }

  /** What was seen of a position stays true. */
  lemma WatchedStays(r: Ring.State, q: Ring.State, d: nat, m: nat)
    requires RingInv.Inv(r) && Quiet(r, q) && Watched(r, d, m)
    ensures Watched(q, d, m)
  {
    EndsStay(r, q, m);
    if m < |r.resv| && r.k < |r.resv| && q.mem != r.mem {
      ResvShape(r.cap, r.resv, r.enq, m);
      ResvShape(r.cap, r.resv, r.enq, r.k);
      if m < r.k { LiveApart(r.cap, r.resv, r.enq, m, m, r.k); }
    }
  }

  lemma SeesStays(r: Ring.State, q: Ring.State, st: Ring.Consumer)
    requires RingInv.Inv(r) && Quiet(r, q) && Sees(r, st)
    ensures Sees(q, st)
  {
    if st.ReadTail? || st.Fresh? || st.ReadMark? {
      var m: nat :| Watched(r, st.d, m);
      WatchedStays(r, q, st.d, m);
    }
  }

  // ---------------------------------------------------------------- unfinished records

  /** An unfinished record is being stored by its owner. */
  ghost predicate Writers(r: Ring.State) {
    forall i | 0 <= i < |r.resv| && r.resv[i].phase.Writing? ::
      r.resv[i].owner in r.prods && r.prods[r.resv[i].owner].Store? && r.prods[r.resv[i].owner].rec == i
  }

  lemma ProducerWrites(r: Ring.State, p: nat)
    requires RingInv.Inv(r) && p in r.prods && Writers(r)
    ensures Writers(Ring.Produced(r, p))
  {
    var st := r.prods[p];
    KIsIn(r);
    if st.Store? {
      assert Ring.Produced(r, p) == Ring.StoreStep(r, p, st.pl, st.rec, st.n);
      StoreWrites(r, p);
      hide Ring.StoreStep, Writers;
    } else if st.Reserve? {
      assert Ring.Produced(r, p) == Ring.ReserveStep(r, p, st.pl);
      ReserveWrites(r, p);
      hide Ring.ReserveStep, Writers;
    } else {
      hide RingInv.Inv;
      OtherWrites(r, p);
      hide Ring.Produced, Writers;
    }
  }

  lemma OtherWrites(r: Ring.State, p: nat)
    requires r.cap > 0 && p in r.prods && Writers(r) && !r.prods[p].Store? && !r.prods[p].Reserve?
    ensures Writers(Ring.Produced(r, p))
  {
    hide PlanAt, RecordLen;
  }

  lemma StoreWrites(r: Ring.State, p: nat)
    requires RingInv.Inv(r) && p in r.prods && Writers(r) && r.prods[p].Store?
    ensures Writers(Ring.StoreStep(r, p, r.prods[p].pl, r.prods[p].rec, r.prods[p].n))
  {
    RingInv.StoreEntry(r, p, r.prods[p].pl, r.prods[p].rec, r.prods[p].n);
    hide Image, Off, Poke, RingInv.Inv;
    var t := Ring.StoreStep(r, p, r.prods[p].pl, r.prods[p].rec, r.prods[p].n);
    forall i | 0 <= i < |t.resv| && t.resv[i].phase.Writing?
      ensures t.resv[i].owner in t.prods && t.prods[t.resv[i].owner].Store? && t.prods[t.resv[i].owner].rec == i
    {
      assert t.resv[i].owner == r.resv[i].owner;
      assert r.resv[i].phase.Writing?;
    }
  }

  lemma ReserveWrites(r: Ring.State, p: nat)
    requires r.cap > 0 && p in r.prods && Writers(r) && r.prods[p].Reserve?
    ensures Writers(Ring.ReserveStep(r, p, r.prods[p].pl))
  {
    hide Image, Off, Poke;
  }

  lemma ConsumerWrites(r: Ring.State, c: nat, timeUp: bool)
    requires r.cap > 0 && c in r.cons && Writers(r)
    ensures Writers(Ring.Consumed(r, c, timeUp))
  {
    if r.cons[c].Claim? {
      assert Ring.Consumed(r, c, timeUp) == Ring.ClaimStep(r, c, r.cons[c].d);
    } else if !r.cons[c].Advance? && !r.cons[c].Skip? {
      RingFacts.ConsumerTouches(r, c, timeUp);
    }
  }

  lemma RingWrites(r: Ring.State, b: Ring.Action, q: Ring.State)
    requires RingInv.Inv(r) && r.cap > 0 && Ring.Next(r, b, q) && Writers(r)
    ensures Writers(q)
  {
    hide RingInv.Inv;
    match b
    case Produce(p) => ProducerWrites(r, p);
    case Consume(c, timeUp) => ConsumerWrites(r, c, timeUp);
    case _ =>
  }

  lemma SizesOf(tr: seq<Sys>, acts: seq<Action>)
    requires Run(tr, acts)
    ensures |tr| == |acts| + 1 && Init(tr[0])
  {
  }

  /** The step of a run. */
  ghost predicate Steps(s: Sys, a: Action, t: Sys) {
    s.ring.cap > 0 && Next(s, a, t) && (a.RingStep? ==> Ring.NoAlias(s.ring, a.a))
  }

  lemma RunSteps(tr: seq<Sys>, acts: seq<Action>, x: nat)
    requires Run(tr, acts) && Unaliased(tr, acts) && x < |acts|
    ensures |tr| == |acts| + 1 && Steps(tr[x], acts[x], tr[x + 1])
  {
    hide Next, Ring.NoAlias;
  }

  lemma InitWrites(s: Sys)
    requires Init(s)
    ensures Writers(s.ring)
  {
  }

  lemma {:induction false} RunWrites(tr: seq<Sys>, acts: seq<Action>, t: nat)
    requires Run(tr, acts) && Unaliased(tr, acts) && t < |tr|
    ensures Writers(tr[t].ring)
  {
    hide Run, Unaliased, Inv, Writers, Steps, Init;
    SizesOf(tr, acts);
    if t == 0 {
      InitWrites(tr[0]);
    } else {
      RunWrites(tr, acts, t - 1);
      RunKeeps(tr, acts, t - 1);
      RunSteps(tr, acts, t - 1);
      StepWrites(tr[t - 1], acts[t - 1], tr[t]);
    }
  }

  lemma StepWrites(s: Sys, a: Action, t: Sys)
    requires Inv(s) && Steps(s, a, t) && Writers(s.ring)
    ensures Writers(t.ring)
  {
    RingIsKept(s);
    hide Inv, Ring.NoAlias;
    hide RingInv.Inv;
    match a
    case RingStep(b) =>
      hide Ring.Next;
      var ring: Ring.State :| Ring.Next(s.ring, b, ring) && t == RingDone(s, b, ring);
      RingWrites(s.ring, b, ring);
    case LoopStep(c, branch) => LoopedShape(s, c, branch); hide Looped;
    case _ =>
  }

  /** At deq, the marker of the front entry is that of a published or a leased record. */
  lemma FrontIsMarked(r: Ring.State)
    requires RingInv.Inv(r) && Writers(r) && NoPutIn(r)
    ensures Watched(r, r.deq, r.k)
  {
    if r.k < |r.resv| {
      ResvShape(r.cap, r.resv, r.enq, r.k);
      assert RingInv.Stored(r.mem, r.resv[r.k], r.k);
    }
  }

  // ---------------------------------------------------------------- every step of that get

  lemma GlanceSees(r: Ring.State, st: Ring.Consumer, timeUp: bool)
    requires RingInv.Inv(r) && Writers(r) && NoPutIn(r)
    requires Sees(r, st)
    ensures Sees(r, Ring.Glance(r, st, timeUp)) || st.Done?
  {
    if st.ReadDeq? { FrontIsMarked(r); }
    if st.ReadTail? || st.Fresh? || st.ReadMark? {
      var m: nat :| Watched(r, st.d, m);
      if st.ReadTail? && st.d >= r.enq { EmptySeen(r, st.d, m); }
      if st.ReadMark? { NotBeyond(r, st.d, m); }
      hide RingInv.Inv, Watched, Load, Off, TotalLen, PadFlag;
      assert Watched(r, st.d, m);
    }
    hide RingInv.Inv, Watched, Load, Off, TotalLen, PadFlag;
  }

  lemma EmptySeen(r: Ring.State, d: nat, m: nat)
    requires RingInv.Inv(r) && Watched(r, d, m) && d >= r.enq
    ensures r.k == |r.resv|
  {
    if m < |r.resv| {
      ResvShape(r.cap, r.resv, r.enq, m);
      TilesAscend(r.cap, r.resv, r.enq, m, |r.resv|);
    }
  }

  lemma NotBeyond(r: Ring.State, d: nat, m: nat)
    requires RingInv.Inv(r) && Watched(r, d, m) && d < r.enq
    ensures m < |r.resv|
  {
  }

  lemma ConsumeSees(r: Ring.State, c: nat, timeUp: bool)
    requires RingInv.Inv(r) && Writers(r) && NoPutIn(r)
    requires c in r.cons && !OutsideGet(r.cons[c]) && Sees(r, r.cons[c]) && Ring.NoAlias(r, Ring.Consume(c, timeUp))
    ensures var q := Ring.Consumed(r, c, timeUp);
            Quiet(r, q) && c in q.cons && Sees(q, q.cons[c])
  {
    var q, st := Ring.Consumed(r, c, timeUp), r.cons[c];
    ConsumeQuiet(r, c, timeUp);
    if !st.Claim? && !st.Advance? && !st.Skip? && !Ring.Parks(st) {
      GlanceSees(r, st, timeUp);
      hide RingInv.Inv, Ring.Glance, Quiet;
      SeesStays(r, q, Ring.Glance(r, st, timeUp));
    } else {
      EndSees(r, c, timeUp);
    }
  }

  lemma EndSees(r: Ring.State, c: nat, timeUp: bool)
    requires r.cap > 0 && c in r.cons
    requires r.cons[c].Claim? || r.cons[c].Advance? || r.cons[c].Skip? || Ring.Parks(r.cons[c])
    ensures var q := Ring.Consumed(r, c, timeUp); c in q.cons && Sees(q, q.cons[c])
  {
    hide Load, Off, Poke, SetPhase, Seen;
  }

  // ---------------------------------------------------------------- the whole system

  /** Steps outside the ring leave all of it but the consumers' places. */
  lemma RingUntouched(s: Sys, a: Action, t: Sys)
    requires s.ring.cap > 0 && Next(s, a, t) && !a.RingStep?
    ensures t.ring == s.ring.(cons := t.ring.cons)
  {
  }

  lemma SameIsQuiet(r: Ring.State, q: Ring.State)
    requires r.cap > 0 && r.k <= |r.resv| && q == r.(cons := q.cons)
    ensures Quiet(r, q)
  {
  }

  lemma StepIs(s: Sys, b: Ring.Action, t: Sys)
    requires s.ring.cap > 0 && Next(s, RingStep(b), t)
    ensures Ring.Next(s.ring, b, t.ring) && !b.Get?
  {
    hide Ring.Next;
  }

  lemma SysQuiet(s: Sys, a: Action, t: Sys)
    requires Inv(s) && s.ring.cap > 0 && Next(s, a, t) && (a.RingStep? ==> Ring.NoAlias(s.ring, a.a))
    requires NoPut(s) && NoPut(t)
    ensures Quiet(s.ring, t.ring)
  {
    RingIsKept(s);
    KIsIn(s.ring);
    hide Inv, RingInv.Inv, Ring.Next, Quiet, Next, Ring.NoAlias;
    if a.RingStep? {
      StepIs(s, a.a, t);
      RingQuiet(s.ring, a.a, t.ring);
    } else {
      RingUntouched(s, a, t);
      SameIsQuiet(s.ring, t.ring);
    }
  }

  /** What another step leaves of the state of a get in progress. */
  lemma OthersLeave(s: Sys, a: Action, t: Sys, c: nat)
    requires s.ring.cap > 0 && Next(s, a, t) && c in s.loops && s.loops[c] == InGet && c in s.ring.cons
    requires !(a.RingStep? && a.a.Consume? && a.a.c == c)
    ensures c in t.ring.cons
    ensures t.ring.cons[c] == s.ring.cons[c] || (s.ring.cons[c].Parked? && t.ring.cons[c] == Ring.Woken)
  {
    hide Ring.Next;
    if a.RingStep? {
      StepIs(s, a.a, t);
      RingLeaves(s.ring, a.a, t.ring, c);
    }
  }

  lemma ProducerConsumers(r: Ring.State, p: nat)
    requires r.cap > 0 && p in r.prods
    ensures Ring.Produced(r, p).cons == r.cons || Ring.Produced(r, p).cons == Ring.Wake(r.cons)
  {
    hide Load, Off, Poke, SetPhase, Image, PlanAt, Ring.Wake, Reservation;
  }

  lemma ConsumerConsumers(r: Ring.State, c: nat, timeUp: bool)
    requires r.cap > 0 && c in r.cons
    ensures var q := Ring.Consumed(r, c, timeUp); c in q.cons && q.cons == r.cons[c := q.cons[c]]
  {
    assert r.cons[c := r.cons[c]] == r.cons;
    hide Load, Off, Poke, SetPhase, Ring.Glance;
  }

  lemma RingLeaves(r: Ring.State, b: Ring.Action, q: Ring.State, c: nat)
    requires r.cap > 0 && Ring.Next(r, b, q) && c in r.cons && !b.Get? && !(b.Consume? && b.c == c)
    ensures c in q.cons && (q.cons[c] == r.cons[c] || (r.cons[c].Parked? && q.cons[c] == Ring.Woken))
  {
    if b.Produce? {
      ProducerConsumers(r, b.p);
      hide Ring.Produced;
    } else if b.Consume? {
      ConsumerConsumers(r, b.c, b.timeUp);
      hide Ring.Consumed;
    }
  }

  /** A step of the system during that get. */
  lemma StepSees(s: Sys, a: Action, t: Sys, c: nat)
    requires Facts(s, a, t) && NoPut(s) && NoPut(t)
    requires c in s.loops && s.loops[c] == InGet && c in s.ring.cons && Sees(s.ring, s.ring.cons[c])
    ensures c in t.ring.cons && Sees(t.ring, t.ring.cons[c])
  {
    SysQuiet(s, a, t);
    RingIsKept(s);
    InGetIsInside(s, c);
    ConsAreOutside(s, c);
    hide Inv, RingInv.Inv, Quiet;
    if a.RingStep? && a.a.Consume? && a.a.c == c {
      StepIs(s, a.a, t);
      hide Next, Sees;
      ConsumedIs(s.ring, a.a, t.ring);
      hide Ring.Next;
      ConsumeSees(s.ring, c, a.a.timeUp);
    } else {
      OthersLeave(s, a, t, c);
      hide Next;
      SeesStays(s.ring, t.ring, s.ring.cons[c]);
    }
  }

  lemma ConsumedIs(r: Ring.State, b: Ring.Action, q: Ring.State)
    requires r.cap > 0 && Ring.Next(r, b, q) && b.Consume?
    ensures b.c in r.cons && q == Ring.Consumed(r, b.c, b.timeUp)
  {
  }

  lemma ConsAreOutside(s: Sys, c: nat)
    requires Inv(s) && c in s.loops && s.loops[c] == InGet
    ensures c in s.ring.cons && !OutsideGet(s.ring.cons[c])
  {
  }

  /** While threads drain, no put is in progress. */
  ghost predicate DrainsAlone(tr: seq<Sys>, t: nat)
    requires t < |tr|
  {
    forall x | 0 <= x <= t && tr[x].leaving != {} :: NoPut(tr[x])
  }

  lemma {:induction false} StillLeaving(tr: seq<Sys>, acts: seq<Action>, x: nat, y: nat, c: nat)
    requires Run(tr, acts) && x <= y < |tr| && c in tr[x].leaving
    ensures c in tr[y].leaving
  {
    hide Next, Init;
    if x < y {
      StillLeaving(tr, acts, x, y - 1, c);
      assert Next(tr[y - 1], acts[y - 1], tr[y]);
      LeavingStays(tr[y - 1], acts[y - 1], tr[y]);
    }
  }

  lemma Alone(tr: seq<Sys>, acts: seq<Action>, x: nat, y: nat, t: nat, c: nat)
    requires Run(tr, acts) && x <= y <= t < |tr| && c in tr[x].leaving && DrainsAlone(tr, t)
    ensures NoPut(tr[y])
  {
    StillLeaving(tr, acts, x, y, c);
  }

  /** What holds at every step of a run. */
  ghost predicate Facts(s: Sys, a: Action, t: Sys) { Inv(s) && Writers(s.ring) && Steps(s, a, t) }

  lemma StepFacts(tr: seq<Sys>, acts: seq<Action>, x: nat)
    requires Run(tr, acts) && Unaliased(tr, acts) && x < |acts|
    ensures |tr| == |acts| + 1 && Facts(tr[x], acts[x], tr[x + 1])
  {
    hide Run, Unaliased, Inv, Writers, Steps;
    SizesOf(tr, acts);
    RunKeeps(tr, acts, x);
    RunWrites(tr, acts, x);
    RunSteps(tr, acts, x);
  }

  lemma {:induction false} GetSees(tr: seq<Sys>, acts: seq<Action>, c: nat, i: nat, j: nat, x: nat)
    requires Run(tr, acts) && Unaliased(tr, acts) && EmptyGet(tr, acts, c, i, j) && i < x <= j + 1
    requires DrainsAlone(tr, j + 1)
    ensures c in tr[x].ring.cons && Sees(tr[x].ring, tr[x].ring.cons[c])
  {
    hide Facts, NoPut, Run, Unaliased;
    SizesOf(tr, acts);
    StepFacts(tr, acts, x - 1);
    Alone(tr, acts, i, x - 1, j + 1, c);
    Alone(tr, acts, i, x, j + 1, c);
    if x == i + 1 {
      GetEntered(tr[i], acts[i], tr[i + 1], c);
    } else {
      GetSees(tr, acts, c, i, j, x - 1);
      hide Sees;
      StepSees(tr[x - 1], acts[x - 1], tr[x], c);
    }
  }

  lemma GetEntered(s: Sys, a: Action, t: Sys, c: nat)
    requires Facts(s, a, t) && c in s.loops && s.loops[c] == Top && c in t.loops && t.loops[c] == InGet
    ensures c in t.ring.cons && t.ring.cons[c] == Ring.ReadDeq
  {
    hide Inv, Writers;
    StepOf(s, a, t, c);
  }

  lemma StepFull(s: Sys, a: Action, t: Sys)
    requires Facts(s, a, t) && NoPut(s) && NoPut(t) && s.ring.k == |s.ring.resv|
    ensures t.ring.k == |t.ring.resv|
  {
    SysQuiet(s, a, t);
    hide Inv, Writers, Steps, NoPut, Quiet;
    QuietFull(s.ring, t.ring);
  }

  lemma QuietFull(r: Ring.State, q: Ring.State)
    requires Quiet(r, q) && r.k == |r.resv|
    ensures q.k == |q.resv|
  {
  }

  lemma {:induction false} StaysDrained(tr: seq<Sys>, acts: seq<Action>, x: nat, y: nat, t: nat, c: nat)
    requires Run(tr, acts) && Unaliased(tr, acts) && x <= y <= t < |tr| && DrainsAlone(tr, t) && c in tr[x].leaving
    requires tr[x].ring.k == |tr[x].ring.resv|
    ensures tr[y].ring.k == |tr[y].ring.resv|
  {
    hide Facts, NoPut, Run, Unaliased, DrainsAlone, Init;
    if x < y {
      SizesOf(tr, acts);
      StaysDrained(tr, acts, x, y - 1, t, c);
      StepFacts(tr, acts, y - 1);
      Alone(tr, acts, x, y - 1, t, c);
      Alone(tr, acts, x, y, t, c);
      StepFull(tr[y - 1], acts[y - 1], tr[y]);
    }
  }

  /** Main result. When all threads have stopped, and no put was in progress from the moment
      the first of them began leaving (other than on a closed ring, which drops it), every
      message ever reserved has been processed. */
  lemma DrainProcessesAll(tr: seq<Sys>, acts: seq<Action>, t: nat)
    requires Run(tr, acts) && Unaliased(tr, acts) && t < |tr| && tr[t].n > 0
    requires forall c | c in tr[t].loops :: tr[t].loops[c] == Stopped
    requires DrainsAlone(tr, t)
    ensures var s := tr[t];
            forall i | 0 <= i < |s.ring.resv| && s.ring.resv[i].msg.Some? :: s.ring.resv[i].pos in s.processed
  {
    RunKeeps(tr, acts, t);
    var s := tr[t];
    assert 0 in s.loops;
    hide Inv, Run, Unaliased, DrainsAlone, EmptyGet;
    SizesOf(tr, acts);
    var i, j := StoppedAfterEmptyGet(tr, acts, t, 0);
    DrainEnds(tr, acts, i, j, t);
    AllHandled(s);
  }

  lemma DrainEnds(tr: seq<Sys>, acts: seq<Action>, i: nat, j: nat, t: nat)
    requires Run(tr, acts) && Unaliased(tr, acts) && j < t < |tr| && DrainsAlone(tr, t) && EmptyGet(tr, acts, 0, i, j)
    ensures tr[t].ring.k == |tr[t].ring.resv|
  {
    hide Run, Unaliased;
    assert DrainsAlone(tr, j + 1);
    hide DrainsAlone;
    GetSees(tr, acts, 0, i, j, j + 1);
    StillLeaving(tr, acts, i, j + 1, 0);
    StaysDrained(tr, acts, j + 1, t, t, 0);
  }

  lemma AllHandled(s: Sys)
    requires Inv(s) && s.ring.k == |s.ring.resv| && forall c | c in s.loops :: s.loops[c] == Stopped
    ensures forall i | 0 <= i < |s.ring.resv| && s.ring.resv[i].msg.Some? :: s.ring.resv[i].pos in s.processed
  {
    hide RingInv.Inv;
    forall i | 0 <= i < |s.ring.resv| && s.ring.resv[i].msg.Some? ensures s.ring.resv[i].pos in s.processed {
      assert HandledBy(s.ring.resv[i].pos, s.n, s.loops, s.taker, s.processed);
    }
  }
}
