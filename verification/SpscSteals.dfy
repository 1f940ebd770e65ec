/** When the producer of the SPSC ring steals: never while the new record fits. */
module SpscSteals {
  import opened RingLayout
  import opened SpscRing

  /** The message the producer was last called with. */
  function LastPut(acts: seq<Action>, t: nat): (m: seq<Msg>)
    requires t <= |acts|
    ensures |m| <= 1
  {
    if t == 0 then [] else if acts[t - 1].Put? then [acts[t - 1].m] else LastPut(acts, t - 1)
  }

  /** The length carried: that of the message, or its extension at the current position. */
  predicate TotalOk(cap: nat, enq: nat, m: Msg, total: nat)
    requires cap > 0
  {
    var len := HEADER + |m.payload|;
    total == len || (Off(cap, enq) + len <= cap && total == Takes(cap, len, enq))
  }

  predicate PlanNeeds(cap: nat, enq: nat, pl: Plan, m: Msg)
    requires cap > 0
  {
    && pl.m == m && pl.pos == enq && pl.len == Takes(cap, HEADER + |m.payload|, enq)
    && TotalOk(cap, enq, m, pl.total) && (pl.pad ==> pl.total == HEADER + |m.payload|)
    && (!pl.pad ==> Off(cap, enq) + HEADER + |m.payload| <= cap && pl.total == pl.len)
  }

  /** The victim was chosen because the record did not fit. */
  predicate Crowded(cap: nat, pl: Plan, d: nat) { pl.pos + pl.len > d + cap }

  predicate ProducerNeeds(cap: nat, enq: nat, st: Producer, last: seq<Msg>)
    requires cap > 0
  {
    match st
    case Idle => true
    case TestClosed(m) => last == [m]
    case ReadEnq(m, total) => last == [m] && TotalOk(cap, enq, m, total)
    case TestSpace(pl, _) => last == [pl.m] && PlanNeeds(cap, enq, pl, pl.m)
    case StealDeq(pl) => last == [pl.m] && PlanNeeds(cap, enq, pl, pl.m)
    case StealLen(pl, d, _) => last == [pl.m] && PlanNeeds(cap, enq, pl, pl.m) && Crowded(cap, pl, d)
    case StealMark(pl, d, _, _) => last == [pl.m] && PlanNeeds(cap, enq, pl, pl.m) && Crowded(cap, pl, d)
    case StealCas(pl, d, _, _) => last == [pl.m] && PlanNeeds(cap, enq, pl, pl.m) && Crowded(cap, pl, d)
    case StealFlags(pl, _, _) => last == [pl.m] && PlanNeeds(cap, enq, pl, pl.m)
    case Reserve(pl) => last == [pl.m] && PlanNeeds(cap, enq, pl, pl.m)
    case Store(pl, _) => last == [pl.m] && (pl.pad ==> pl.total == HEADER + |pl.m.payload|)
  }

  lemma PlanIsNeeded(cap: nat, enq: nat, m: Msg, total: nat)
    requires cap > 0 && TotalOk(cap, enq, m, total)
    ensures PlanNeeds(cap, enq, PlanAt(cap, m, total, enq), m)
  {
  }

  lemma StealNeeds(s: State, last: seq<Msg>)
    requires s.cap > 0 && ProducerNeeds(s.cap, s.enq, s.prod, last) && Stealing(s.prod)
    ensures var t := StealStep(s);
            t.cap == s.cap && t.enq == s.enq && ProducerNeeds(s.cap, s.enq, t.prod, last)
  {
    hide Off, Load, Poke, Takes, TotalLen, PadFlag;
  }

  lemma ProduceNeeds(s: State, last: seq<Msg>)
    requires s.cap > 0 && ProducerNeeds(s.cap, s.enq, s.prod, last)
    ensures var t := Produced(s);
            t.cap == s.cap && ProducerNeeds(s.cap, t.enq, t.prod, last)
  {
    if Stealing(s.prod) {
      StealNeeds(s, last);
      hide StealStep;
    } else {
      if s.prod.ReadEnq? { PlanIsNeeded(s.cap, s.enq, s.prod.m, s.prod.total); }
      hide Off, Load, Poke, PlanAt, SetPhase, Image, Takes, Content;
    }
  }

  lemma ConsumerLeaves(s: State, timeUp: bool)
    requires s.cap > 0
    ensures var t := Consumed(s, timeUp);
            t.cap == s.cap && t.prod == s.prod && t.enq == s.enq && t.closed == s.closed && t.resv == s.resv
            && t.dropped == s.dropped
            && |s.fates| <= |t.fates| && forall i | |s.fates| <= i < |t.fates| :: t.fates[i] != Stolen
  {
    hide Load, Off, TotalLen, PadFlag;
  }

  lemma {:induction false} RunNeeds(tr: seq<State>, acts: seq<Action>, t: nat)
    requires Run(tr, acts) && t < |tr|
    ensures tr[t].cap > 0 && ProducerNeeds(tr[t].cap, tr[t].enq, tr[t].prod, LastPut(acts, t))
  {
    if t > 0 {
      RunNeeds(tr, acts, t - 1);
      var s, a := tr[t - 1], acts[t - 1];
      assert Next(s, a, tr[t]);
      if a.Produce? { ProduceNeeds(s, LastPut(acts, t - 1)); }
      if a.Consume? { ConsumerLeaves(s, a.timeUp); }
      hide Produced, Consumed, PlanNeeds, TotalOk;
    }
  }

  /** A step that appends Stolen is the successful CAS of the producer on the victim. */
  lemma StealIs(s: State, a: Action, t: State)
    requires s.cap > 0 && Next(s, a, t) && |t.fates| > |s.fates| && t.fates[|s.fates|] == Stolen
    ensures a.Produce? && s.prod.StealCas? && s.deq == s.prod.d
  {
    if a.Consume? { ConsumerLeaves(s, a.timeUp); }
    hide Load, Off, Poke, TotalLen, PadFlag, PlanAt, SetPhase, Image, Reservation, Consumed;
  }

  /** Main result. A record is stolen only while the record of the message last put does not
      fit: what it takes at enq reaches beyond the words that are free. */
  lemma StealsOnlyWhenFull(tr: seq<State>, acts: seq<Action>, t: nat)
    requires Run(tr, acts) && t < |acts|
    requires |tr[t + 1].fates| > |tr[t].fates| && tr[t + 1].fates[|tr[t].fates|] == Stolen
    ensures tr[t].cap > 0 && |LastPut(acts, t)| == 1
    ensures var s := tr[t];
            s.enq + Takes(s.cap, HEADER + |LastPut(acts, t)[0].payload|, s.enq) > s.deq + s.cap
  {
    RunNeeds(tr, acts, t);
    StealIs(tr[t], acts[t], tr[t + 1]);
  }

  /** So no more is stolen than what makes room: without a message stolen last, the record
      would not have fitted. */
  lemma NothingStolenWithRoom(tr: seq<State>, acts: seq<Action>, t: nat)
    requires Run(tr, acts) && t < |acts| && |LastPut(acts, t)| == 1
    requires tr[t].enq + 2 * HEADER + |LastPut(acts, t)[0].payload| <= tr[t].deq + tr[t].cap
    ensures !(|tr[t + 1].fates| > |tr[t].fates| && tr[t + 1].fates[|tr[t].fates|] == Stolen)
  {
    if |tr[t + 1].fates| > |tr[t].fates| && tr[t + 1].fates[|tr[t].fates|] == Stolen {
      StealsOnlyWhenFull(tr, acts, t);
    }
  }

  // ---------------------------------------------------------------- a closed ring

  ghost predicate NothingPending(s: State) { s.closed && (s.prod.Idle? || s.prod.TestClosed?) }

  /** Once the ring is closed and no put is past its test, nothing enters any more. */
  lemma {:induction false} ClosedRefuses(tr: seq<State>, acts: seq<Action>, t: nat, u: nat)
    requires Run(tr, acts) && t <= u < |tr| && NothingPending(tr[t])
    ensures NothingPending(tr[u]) && tr[u].resv == tr[t].resv
  {
    if t < u {
      ClosedRefuses(tr, acts, t, u - 1);
      var s, a := tr[u - 1], acts[u - 1];
      assert Next(s, a, tr[u]);
      if a.Consume? {
        ConsumerLeaves(s, a.timeUp);
        hide Consumed;
      }
    }
  }
}
