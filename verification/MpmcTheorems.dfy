/** What users of the MPMC ring may rely on, in every run without an alias. */
module MpmcTheorems {
  import opened RingLayout
  import opened MpmcRing
  import opened MpmcInvariant

  // ---------------------------------------------------------------- exactly once, in order

  /** The deliveries, oldest first, are the messages among `resv[..k]` and nothing else. */
  ghost predicate ExactlyMessages(delivered: seq<Delivery>, resv: seq<Resv>, k: nat)
    requires k <= |resv|
  {
    var ids := NonPads(resv, k);
    && |delivered| == |ids|
    && forall x | 0 <= x < |ids| ::
      && ids[x] < |resv| && resv[ids[x]].msg.Some?
      && delivered[x].pos == resv[ids[x]].pos && Carries(delivered[x].words, resv[ids[x]].msg.value)
  }

  lemma {:induction false} HandedIsExact(cap: nat, enq: nat, delivered: seq<Delivery>, resv: seq<Resv>, k: nat)
    requires CapOk(cap) && Tiled(cap, resv, enq) && k <= |resv| && Handed(delivered, resv, k)
    ensures ExactlyMessages(delivered, resv, k)
  {
    if k > 0 {
      if resv[k - 1].msg.None? {
        HandedIsExact(cap, enq, delivered, resv, k - 1);
      } else {
        var n := |delivered| - 1;
        HandedIsExact(cap, enq, delivered[..n], resv, k - 1);
        StagedCarries(cap, delivered[n].words, resv[k - 1]) by { assert ResvOk(cap, resv[k - 1]); }
      }
    }
  }

  /** Main result: whatever the interleaving of any number of producers and consumers, the
      records handed out by get are exactly the messages reserved below deq, in
      reservation order, each once, with the words their producers stored. */
  lemma DeliversExactlyOnceInOrder(tr: seq<State>, acts: seq<Action>, t: nat)
    requires Run(tr, acts) && Unaliased(tr, acts) && t < |tr|
    ensures tr[t].k <= |tr[t].resv| && ExactlyMessages(tr[t].delivered, tr[t].resv, tr[t].k)
    ensures tr[t].deq == tr[t].enq ==> tr[t].k == |tr[t].resv|
  {
    RunKeeps(tr, acts, t);
    var s := tr[t];
    HandedIsExact(s.cap, s.enq, s.delivered, s.resv, s.k);
    if s.k < |s.resv| {
      ResvShape(s.cap, s.resv, s.enq, s.k);
      TilesAscend(s.cap, s.resv, s.enq, s.k, |s.resv|);
    }
  }

  /** Nothing is claimed before its commit: the lease goes to the published front record. */
  lemma ClaimsOnlyPublished(tr: seq<State>, acts: seq<Action>, t: nat, c: nat, d: nat)
    requires Run(tr, acts) && Unaliased(tr, acts) && t < |acts|
    requires acts[t].Consume? && acts[t].c == c && c in tr[t].cons && tr[t].cons[c] == Claim(d)
    requires tr[t + 1].cons[c] == ReadLen(d)
    ensures tr[t].k < |tr[t].resv| && tr[t].resv[tr[t].k].phase == Published
    ensures tr[t].resv[tr[t].k].pos == d == tr[t].deq
  {
    RunKeeps(tr, acts, t);
    assert NoAlias(tr[t], acts[t]);
    assert Next(tr[t], acts[t], tr[t + 1]);
    ClaimFindsFront(tr[t], c, d);
  }

  // ---------------------------------------------------------------- the lease

  predicate InLease(st: Consumer) {
    st.ReadLen? || st.ReadFlags? || st.Copy? || st.Advance? || st.Skip?
  }

  /** While a consumer works under its lease on d, deq stays at d, nobody else holds a
      lease, and every range a producer is writing is physically elsewhere. */
  lemma LeaseIsExclusive(tr: seq<State>, acts: seq<Action>, t: nat, c: nat)
    requires Run(tr, acts) && Unaliased(tr, acts) && t < |tr|
    requires c in tr[t].cons && InLease(tr[t].cons[c])
    ensures var s := tr[t];
            && s.cons[c].d == s.deq && s.k < |s.resv| && s.resv[s.k].pos == s.deq
            && (forall b | b in s.cons && InLease(s.cons[b]) :: b == c)
            && (forall p | p in s.prods && s.prods[p].Store? ::
                  var r := s.prods[p].rec; r < |s.resv| && Apart(s.resv[r], s.resv[s.k]))
  {
    RunKeeps(tr, acts, t);
    var s := tr[t];
    assert ConOk(s.enq, s.deq, s.resv, s.k, c, s.cons[c]);
    ResvShape(s.cap, s.resv, s.enq, s.k);
    forall b | b in s.cons && InLease(s.cons[b]) ensures b == c {
      assert ConOk(s.enq, s.deq, s.resv, s.k, b, s.cons[b]);
    }
    forall p | p in s.prods && s.prods[p].Store?
      ensures s.prods[p].rec < |s.resv| && Apart(s.resv[s.prods[p].rec], s.resv[s.k])
    {
      assert ProdOk(s.cap, s.enq, s.deq, s.resv, p, s.prods[p]);
      LiveApart(s.cap, s.resv, s.enq, s.k, s.prods[p].rec, s.k);
    }
  }

  /** The deq CAS of the lease holder succeeds, whatever the others did meanwhile. */
  lemma AdvanceCannotFail(tr: seq<State>, acts: seq<Action>, t: nat, c: nat)
    requires Run(tr, acts) && Unaliased(tr, acts) && t < |acts|
    requires acts[t].Consume? && acts[t].c == c && c in tr[t].cons
    requires tr[t].cons[c].Advance? || tr[t].cons[c].Skip?
    ensures tr[t].k < |tr[t].resv| && tr[t + 1].k == tr[t].k + 1
    ensures tr[t + 1].deq == End(tr[t].resv[tr[t].k])
  {
    RunKeeps(tr, acts, t);
    var s := tr[t];
    assert ConOk(s.enq, s.deq, s.resv, s.k, c, s.cons[c]);
    assert Next(tr[t], acts[t], tr[t + 1]);
  }

  // ---------------------------------------------------------------- layout

  /** No record crosses the boundary, and each starts at offset 0 or at least a header
      before the boundary, so that a pad always fits. */
  ghost predicate InOnePiece(cap: nat, r: Resv)
    requires cap > 0
  {
    && r.pos % cap + r.len <= cap
    && (r.pos % cap == 0 || r.pos % cap + HEADER <= cap)
  }

  lemma PlacedInOnePiece(cap: nat, resv: seq<Resv>, enq: nat, i: nat)
    requires CapOk(cap) && Tiled(cap, resv, enq) && i < |resv|
    ensures InOnePiece(cap, resv[i])
  {
    ResvShape(cap, resv, enq, i);
    OffIsRemainder(cap, resv[i].pos);
  }

  /** In every state the reservations tile [0, enq), each in one physical piece; and though
      producers read deq stale, the occupied window never exceeds the capacity. */
  lemma ReservationsTileTheRing(tr: seq<State>, acts: seq<Action>, t: nat)
    requires Run(tr, acts) && Unaliased(tr, acts) && t < |tr|
    ensures var s := tr[t];
            && s.cap > 0 && s.deq <= s.enq <= s.deq + s.cap
            && (forall i | 0 <= i < |s.resv| :: InOnePiece(s.cap, s.resv[i]))
            && Tiled(s.cap, s.resv, s.enq)
  {
    RunKeeps(tr, acts, t);
    var s := tr[t];
    forall i | 0 <= i < |s.resv| ensures InOnePiece(s.cap, s.resv[i]) {
      PlacedInOnePiece(s.cap, s.resv, s.enq, i);
    }
    if s.k < |s.resv| {
      ResvShape(s.cap, s.resv, s.enq, s.k);
      TilesAscend(s.cap, s.resv, s.enq, s.k, |s.resv|);
    }
  }

  // ---------------------------------------------------------------- no lost wakeup

  /** A consumer parked in lf_wait while a message is unconsumed: the message's producer
      still owes the wakeup, and cannot return without sending it. */
  lemma NoLostWakeup(tr: seq<State>, acts: seq<Action>, t: nat, c: nat, i: nat)
    requires Run(tr, acts) && Unaliased(tr, acts) && t < |tr|
    requires c in tr[t].cons && tr[t].cons[c].Parked?
    requires tr[t].k <= i < |tr[t].resv| && tr[t].resv[i].msg.Some?
    ensures var s := tr[t]; var p := s.resv[i].owner;
            && s.cap > 0 && p in s.prods && Owes(s.prods[p], i) && s.waiting > 0
            && (!s.resv[i].phase.Writing? ==> s.prods[p] == Kick(i) || s.prods[p] == KickLocked(i))
            && (s.prods[p] == Kick(i) ==> Produced(s, p).prods[p] == KickLocked(i))
            && (s.prods[p] == KickLocked(i) && s.mutex.None? ==> Produced(s, p).cons[c] == Woken)
  {
    RunKeeps(tr, acts, t);
    var s := tr[t];
    assert ConOk(s.enq, s.deq, s.resv, s.k, c, s.cons[c]);
    ResvShape(s.cap, s.resv, s.enq, i);
    ResvShape(s.cap, s.resv, s.enq, s.k);
    if s.k < i { TilesAscend(s.cap, s.resv, s.enq, s.k, i); }
    var p := s.resv[i].owner;
    assert c in Waiters(s.cons);
    assert ProdOk(s.cap, s.enq, s.deq, s.resv, p, s.prods[p]);
  }

  // ---------------------------------------------------------------- history

  ghost predicate Extends(resv: seq<Resv>, resv': seq<Resv>) {
    && |resv| <= |resv'|
    && forall i | 0 <= i < |resv| :: resv'[i].pos == resv[i].pos && resv'[i].len == resv[i].len
                                     && resv'[i].msg == resv[i].msg && resv'[i].owner == resv[i].owner
  }

  ghost predicate Grows(s: State, t: State) {
    && s.delivered <= t.delivered && Extends(s.resv, t.resv) && s.k <= t.k
    && s.enq <= t.enq && s.deq <= t.deq && s.cap == t.cap
  }

  lemma ProducerGrows(s: State, p: nat)
    requires s.cap > 0 && p in s.prods
    ensures Grows(s, Produced(s, p))
  {
    var st := s.prods[p];
    if st.Reserve? { ReserveGrows(s, p, st.pl); }
    else if st.Store? { StoreGrows(s, p, st.pl, st.rec, st.n); }
  }

  lemma ReserveGrows(s: State, p: nat, pl: Plan)
    requires s.cap > 0
    ensures Grows(s, ReserveStep(s, p, pl))
  {
  }

  lemma StoreGrows(s: State, p: nat, pl: Plan, i: nat, n: nat)
    requires s.cap > 0
    ensures Grows(s, StoreStep(s, p, pl, i, n))
  {
  }

  /** Only the lease CAS and the two deq CASes of a consumer touch the ring. */
  lemma ConsumerTouches(s: State, c: nat, timeUp: bool)
    requires s.cap > 0 && c in s.cons
    requires !s.cons[c].Claim? && !s.cons[c].Advance? && !s.cons[c].Skip?
    ensures var t := Consumed(s, c, timeUp);
            t == s.(cons := s.cons[c := t.cons[c]], mutex := t.mutex, waiting := t.waiting)
  {
    assert s.cons[c := s.cons[c]] == s.cons;
  }

  lemma ConsumerGrows(s: State, c: nat, timeUp: bool)
    requires s.cap > 0 && c in s.cons
    ensures Grows(s, Consumed(s, c, timeUp))
  {
    if s.cons[c].Claim? {
      assert Grows(s, ClaimStep(s, c, s.cons[c].d));
    } else if s.cons[c].Advance? {
      assert Grows(s, AdvanceStep(s, c, s.cons[c].d, s.cons[c].total, s.cons[c].words));
    } else if s.cons[c].Skip? {
      assert Grows(s, SkipStep(s, c, s.cons[c].d, s.cons[c].total));
    } else {
      ConsumerTouches(s, c, timeUp);
    }
  }

  lemma StepGrows(s: State, a: Action, t: State)
    requires s.cap > 0 && Next(s, a, t)
    ensures Grows(s, t)
  {
    match a
    case Produce(p) => ProducerGrows(s, p);
    case Consume(c, timeUp) => ConsumerGrows(s, c, timeUp);
    case _ =>
  }

  lemma GrowsOn(s: State, t: State, u: State)
    requires Grows(s, t) && Grows(t, u)
    ensures Grows(s, u)
  {
  }

  /** Deliveries are never taken back or reordered, and reservations never change. */
  lemma {:induction false} HistoryGrows(tr: seq<State>, acts: seq<Action>, i: nat, j: nat)
    requires Run(tr, acts) && i <= j < |tr|
    ensures Grows(tr[i], tr[j])
    decreases j
  {
    if i < j {
      HistoryGrows(tr, acts, i, j - 1);
      StepGrows(tr[j - 1], acts[j - 1], tr[j]);
      GrowsOn(tr[i], tr[j - 1], tr[j]);
    }
  }
}
