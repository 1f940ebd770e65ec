/** What users of the SPSC overwrite ring may rely on, in every run without an alias. */
module SpscTheorems {
  import opened Options
  import opened RingLayout
  import opened SpscRing
  import opened SpscInvariant

  /** The indices the consumer took, in order. */
  function TakenIds(fates: seq<Fate>, k: nat): seq<nat>
    requires k <= |fates|
  {
    if k == 0 then [] else TakenIds(fates, k - 1) + if fates[k - 1] == Taken then [k - 1] else []
  }

  ghost predicate ExactlyTaken(delivered: seq<Delivery>, resv: seq<Resv>, fates: seq<Fate>, k: nat)
    requires k <= |fates| && k <= |resv|
  {
    var ids := TakenIds(fates, k);
    && |delivered| == |ids|
    && forall x | 0 <= x < |ids| ::
      && ids[x] < |resv| && resv[ids[x]].msg.Some?
      && delivered[x].pos == resv[ids[x]].pos && Carries(delivered[x].words, resv[ids[x]].msg.value)
  }

  lemma {:induction false} HandedIsExact(cap: nat, enq: nat, delivered: seq<Delivery>, resv: seq<Resv>,
                                         fates: seq<Fate>, k: nat)
    requires CapOk(cap) && Tiled(cap, resv, enq) && k <= |resv| && k <= |fates|
    requires Handed(delivered, resv, fates, k)
    ensures ExactlyTaken(delivered, resv, fates, k)
  {
    if k > 0 {
      if fates[k - 1] != Taken {
        HandedIsExact(cap, enq, delivered, resv, fates, k - 1);
      } else {
        var n := |delivered| - 1;
        HandedIsExact(cap, enq, delivered[..n], resv, fates, k - 1);
        StagedCarries(cap, delivered[n].words, resv[k - 1]) by { assert ResvOk(cap, resv[k - 1]); }
      }
    }
  }

  /** Main result. deq has passed exactly the first |fates| records, each with one fate.
      A message passed by deq was either taken by the consumer, and then handed out with
      the words its producer stored even if the producer was stealing and rewriting
      meanwhile, or stolen, and then counted in `overwritten` (as soon as the producer's
      next step); never both, never neither. Only pads are skipped. */
  lemma PassedOnceDeliveredOrOverwritten(tr: seq<State>, acts: seq<Action>, t: nat)
    requires Run(tr, acts) && Unaliased(tr, acts) && t < |tr|
    ensures var s := tr[t];
            && |s.fates| <= |s.resv| && s.deq == EndOf(s.resv, |s.fates|)
            && ExactlyTaken(s.delivered, s.resv, s.fates, |s.fates|)
            && (forall i | 0 <= i < |s.fates| && s.resv[i].msg.Some? :: s.fates[i] == Taken || s.fates[i] == Stolen)
            && (!s.prod.StealFlags? ==> s.overwritten == StolenMessages(s.resv, s.fates, |s.fates|))
            && s.overwritten + (if s.prod.StealFlags? then 1 else 0) >= StolenMessages(s.resv, s.fates, |s.fates|)
            && s.overwritten <= StolenMessages(s.resv, s.fates, |s.fates|)
  {
    RunKeeps(tr, acts, t);
    var s := tr[t];
    HandedIsExact(s.cap, s.enq, s.delivered, s.resv, s.fates, |s.fates|);
  }

  function Messages(resv: seq<Resv>, k: nat): nat
    requires k <= |resv|
  {
    if k == 0 then 0 else Messages(resv, k - 1) + if resv[k - 1].msg.Some? then 1 else 0
  }

  lemma {:induction false} TakenPlusStolen(s: State, k: nat)
    requires Inv(s) && k <= |s.fates|
    requires forall i | 0 <= i < |s.fates| && s.fates[i] == Taken :: s.resv[i].msg.Some?
    ensures |TakenIds(s.fates, k)| + StolenMessages(s.resv, s.fates, k) == Messages(s.resv, k)
  {
    if k > 0 { TakenPlusStolen(s, k - 1); }
  }

  lemma {:induction false} TakenAreMessages(delivered: seq<Delivery>, resv: seq<Resv>, fates: seq<Fate>, k: nat, i: nat)
    requires k <= |resv| && k <= |fates| && Handed(delivered, resv, fates, k) && i < k && fates[i] == Taken
    ensures resv[i].msg.Some?
  {
    if fates[k - 1] != Taken { TakenAreMessages(delivered, resv, fates, k - 1, i); }
    else if i < k - 1 { TakenAreMessages(delivered[..|delivered| - 1], resv, fates, k - 1, i); }
  }

  /** Conservation: between steals, delivered + overwritten is the number of messages deq
      has passed. */
  lemma DeliveredPlusOverwritten(tr: seq<State>, acts: seq<Action>, t: nat)
    requires Run(tr, acts) && Unaliased(tr, acts) && t < |tr| && !tr[t].prod.StealFlags?
    ensures var s := tr[t];
            |s.fates| <= |s.resv| && |s.delivered| + s.overwritten == Messages(s.resv, |s.fates|)
  {
    PassedOnceDeliveredOrOverwritten(tr, acts, t);
    RunKeeps(tr, acts, t);
    var s := tr[t];
    forall i | 0 <= i < |s.fates| && s.fates[i] == Taken ensures s.resv[i].msg.Some? {
      TakenAreMessages(s.delivered, s.resv, s.fates, |s.fates|, i);
    }
    TakenPlusStolen(s, |s.fates|);
  }

  /** Under overwrite a put is never dropped for lack of space: only a closed ring drops. */
  lemma OverwriteDropsOnlyWhenClosed(tr: seq<State>, acts: seq<Action>, t: nat)
    requires Run(tr, acts) && Unaliased(tr, acts) && t < |tr|
    ensures tr[t].dropped > 0 ==> tr[t].closed
  {
    RunKeeps(tr, acts, t);
  }

  /** While deq still stands at a position the consumer started on, all it has copied is
      the record's: a torn copy can only belong to a record that is already stolen, whose
      deq CAS must fail. */
  lemma TornCopiesNeverReturn(tr: seq<State>, acts: seq<Action>, t: nat)
    requires Run(tr, acts) && Unaliased(tr, acts) && t < |acts| && acts[t].Consume? && tr[t].con.Advance?
    ensures var s, u := tr[t], tr[t + 1];
            if s.deq == s.con.d
            then u.con == Done(Some(s.deq)) && |s.fates| < |s.resv| && s.resv[|s.fates|].msg.Some?
                 && Carries(s.con.words, s.resv[|s.fates|].msg.value)
            else u.con == ReadDeq && u.delivered == s.delivered && u.deq == s.deq
  {
    RunKeeps(tr, acts, t);
    var s := tr[t];
    assert Next(s, acts[t], tr[t + 1]);
    if s.deq == s.con.d {
      var r := s.resv[|s.fates|];
      assert ResvOk(s.cap, r);
      StagedCarries(s.cap, s.con.words, r);
    }
  }

  /** The occupied window never exceeds the capacity, although the producer itself moves deq. */
  lemma WindowFits(tr: seq<State>, acts: seq<Action>, t: nat)
    requires Run(tr, acts) && Unaliased(tr, acts) && t < |tr|
    ensures tr[t].cap > 0 && tr[t].deq <= tr[t].enq <= tr[t].deq + tr[t].cap
    ensures Tiled(tr[t].cap, tr[t].resv, tr[t].enq)
  {
    RunKeeps(tr, acts, t);
    if |tr[t].fates| < |tr[t].resv| { Front(tr[t]); }
  }

  /** The length the consumer works with has passed its test. */
  predicate LengthTested(cap: nat, st: Consumer) {
    match st
    case ReadFlags(_, total) => HEADER <= total <= cap
    case Skip(_, total) => HEADER <= total <= cap
    case Copy(_, total, words) => HEADER <= total <= cap && |words| <= total
    case Check(_, total, words) => HEADER <= total <= cap && |words| == total
    case Advance(_, total, words) => HEADER <= total <= cap && |words| == total
    case _ => true
  }

  lemma LengthStaysTested(s: State, a: Action, t: State)
    requires s.cap > 0 && Next(s, a, t) && LengthTested(s.cap, s.con)
    ensures LengthTested(t.cap, t.con) && t.cap == s.cap
  {
    match a
    case Produce =>
      ProducerLeavesConsumer(s);
    case Consume(timeUp) =>
      hide Load, Off, TotalLen, PadFlag;
    case _ =>
  }

  lemma ProducerLeavesConsumer(s: State)
    requires s.cap > 0
    ensures Produced(s).con == s.con && Produced(s).cap == s.cap
  {
    hide Poke, Load, Off, Image, SetPhase, TotalLen, PadFlag, PlanAt, RecordLen, Reservation;
  }

  lemma {:induction false} LengthIsTested(tr: seq<State>, acts: seq<Action>, t: nat)
    requires Run(tr, acts) && t < |tr|
    ensures LengthTested(tr[t].cap, tr[t].con)
  {
    if t > 0 {
      hide Next, Init;
      LengthIsTested(tr, acts, t - 1);
      LengthStaysTested(tr[t - 1], acts[t - 1], tr[t]);
    } else {
      hide Next;
    }
  }

  /** How far the copy of get reads. A torn length can send it past the end of the buffer,
      by fewer words than the capacity; but only when the record has already been stolen, so
      the copy is thrown away. While deq has not moved it stays inside the buffer. */
  lemma CopyReaches(tr: seq<State>, acts: seq<Action>, t: nat)
    requires Run(tr, acts) && Unaliased(tr, acts) && t < |tr| && tr[t].con.Copy?
    requires |tr[t].con.words| < tr[t].con.total
    ensures var s := tr[t];
            s.cap > 0 && var x := Off(s.cap, s.con.d) + |s.con.words|;
            && x < Off(s.cap, s.con.d) + s.cap < 2 * s.cap
            && (s.deq == s.con.d ==> x < s.cap)
            && (x >= s.cap ==> s.deq > s.con.d)
  {
    RunKeeps(tr, acts, t);
    LengthIsTested(tr, acts, t);
    var s := tr[t];
    assert ConOk(s.enq, s.deq, s.resv, |s.fates|, s.con);
    if s.deq == s.con.d { Front(s); }
  }
}
