/** When the MPMC ring drops a put: never while the record fits, and always once the ring is
    closed. */
module MpmcDrops {
  import opened Options
  import opened RingLayout
  import opened MpmcRing
  import MpmcAccounting

  /** The length a put carries after it lost the race for the positions `tried`: an extension
      to the boundary is kept. */
  function Carry(cap: nat, len: nat, tried: seq<nat>): nat
    requires cap > 0
  {
    if tried == [] then len
    else
      var n := |tried| - 1;
      var l := Carry(cap, len, tried[..n]);
      if Off(cap, tried[n]) + l <= cap then Takes(cap, l, tried[n]) else l
  }

  /** The positions the current put of producer p has lost the race for, oldest first. */
  function LostRaces(tr: seq<State>, acts: seq<Action>, t: nat, p: nat): seq<nat>
    requires t <= |acts| <= |tr|
  {
    if t == 0 then []
    else
      var a, s := acts[t - 1], tr[t - 1];
      if a.Put? && a.p == p then []
      else if a == Produce(p) && p in s.prods && s.prods[p].Reserve? && s.prods[p].pl.pos != s.enq
      then LostRaces(tr, acts, t - 1, p) + [s.prods[p].pl.pos]
      else LostRaces(tr, acts, t - 1, p)
  }

  predicate PlanNeeds(cap: nat, enq: nat, pl: Plan, tried: seq<nat>)
    requires cap > 0
  {
    var len := Carry(cap, HEADER + |pl.m.payload|, tried);
    && pl.pos <= enq && pl.len == Takes(cap, len, pl.pos)
    && (pl.pad <==> Off(cap, pl.pos) + len > cap) && pl.total == if pl.pad then len else pl.len
  }

  predicate ProducerNeeds(cap: nat, enq: nat, st: Producer, tried: seq<nat>)
    requires cap > 0
  {
    match st
    case TestClosed(m) => tried == []
    case ReadEnq(m, total) => total == Carry(cap, HEADER + |m.payload|, tried)
    case TestSpace(pl, _) => PlanNeeds(cap, enq, pl, tried)
    case Reserve(pl) => PlanNeeds(cap, enq, pl, tried)
    case Store(pl, _, _) => PlanNeeds(cap, enq, pl, tried)
    case _ => true
  }

  lemma CarryOne(cap: nat, len: nat, tried: seq<nat>, pos: nat)
    requires cap > 0
    ensures var l := Carry(cap, len, tried);
            Carry(cap, len, tried + [pos]) == if Off(cap, pos) + l <= cap then Takes(cap, l, pos) else l
  {
    assert (tried + [pos])[..|tried|] == tried;
  }

  /** What a step of producer p does to the positions it has lost. */
  function Tried(s: State, p: nat, tried: seq<nat>): seq<nat> {
    if p in s.prods && s.prods[p].Reserve? && s.prods[p].pl.pos != s.enq then tried + [s.prods[p].pl.pos] else tried
  }

  /** What put computes from the enq it read. */
  lemma PlanIsNeeded(cap: nat, enq: nat, m: Msg, total: nat, tried: seq<nat>)
    requires cap > 0 && total == Carry(cap, HEADER + |m.payload|, tried)
    ensures PlanNeeds(cap, enq, PlanAt(cap, m, total, enq), tried)
  {
    hide Carry;
  }

  /** A lost race carries the extension on. */
  lemma RaceLost(cap: nat, enq: nat, pl: Plan, tried: seq<nat>)
    requires cap > 0 && PlanNeeds(cap, enq, pl, tried)
    ensures pl.total == Carry(cap, HEADER + |pl.m.payload|, tried + [pl.pos])
  {
    CarryOne(cap, HEADER + |pl.m.payload|, tried, pl.pos);
    hide Carry;
  }

  lemma PadCarries(cap: nat, enq: nat, pl: Plan, tried: seq<nat>)
    requires cap > 0 && PlanNeeds(cap, enq, pl, tried) && pl.pad
    ensures pl.total == Carry(cap, HEADER + |pl.m.payload|, tried)
  {
  }

  lemma PlanStays(cap: nat, enq: nat, enq': nat, pl: Plan, tried: seq<nat>)
    requires cap > 0 && PlanNeeds(cap, enq, pl, tried) && enq <= enq'
    ensures PlanNeeds(cap, enq', pl, tried)
  {
  }

  lemma ReserveKeeps(s: State, p: nat, tried: seq<nat>)
    requires s.cap > 0 && p in s.prods && s.prods[p].Reserve? && PlanNeeds(s.cap, s.enq, s.prods[p].pl, tried)
    ensures var t := ReserveStep(s, p, s.prods[p].pl);
            && t.cap == s.cap && s.enq <= t.enq && t.prods == s.prods[p := t.prods[p]]
            && ProducerNeeds(s.cap, t.enq, t.prods[p], Tried(s, p, tried))
  {
    var pl := s.prods[p].pl;
    hide PlanNeeds, Carry, Reservation;
    if s.enq == pl.pos { PlanStays(s.cap, s.enq, s.enq + pl.len, pl, tried); }
    else { RaceLost(s.cap, s.enq, pl, tried); }
  }

  lemma StoreKeeps(s: State, p: nat, tried: seq<nat>)
    requires s.cap > 0 && p in s.prods && s.prods[p].Store? && PlanNeeds(s.cap, s.enq, s.prods[p].pl, tried)
    ensures var st := s.prods[p]; var t := StoreStep(s, p, st.pl, st.rec, st.n);
            && t.cap == s.cap && s.enq == t.enq && p in t.prods && t.prods == s.prods[p := t.prods[p]]
            && ProducerNeeds(s.cap, t.enq, t.prods[p], tried)
  {
    hide PlanNeeds, Carry, Off, Image, Poke, SetPhase, Content;
    if s.prods[p].pl.pad { PadCarries(s.cap, s.enq, s.prods[p].pl, tried); }
  }

  lemma OtherKeeps(s: State, p: nat, tried: seq<nat>)
    requires s.cap > 0 && p in s.prods && ProducerNeeds(s.cap, s.enq, s.prods[p], tried)
    requires !s.prods[p].Reserve? && !s.prods[p].Store?
    ensures var t := Produced(s, p);
            && t.cap == s.cap && s.enq == t.enq && p in t.prods && t.prods == s.prods[p := t.prods[p]]
            && ProducerNeeds(s.cap, t.enq, t.prods[p], tried)
  {
    var st := s.prods[p];
    if st.TestClosed? { assert Carry(s.cap, RecordLen(st.m), []) == RecordLen(st.m); }
    assert s.prods == s.prods[p := st];
    hide PlanNeeds, PlanAt, Carry, Wake, SetKicked;
    if st.ReadEnq? { PlanIsNeeded(s.cap, s.enq, st.m, st.total, tried); }
  }

  lemma ProducerKeeps(s: State, p: nat, tried: seq<nat>)
    requires s.cap > 0 && p in s.prods && ProducerNeeds(s.cap, s.enq, s.prods[p], tried)
    ensures var t := Produced(s, p);
            && t.cap == s.cap && s.enq <= t.enq && p in t.prods && t.prods == s.prods[p := t.prods[p]]
            && ProducerNeeds(s.cap, t.enq, t.prods[p], Tried(s, p, tried))
  {
    hide PlanNeeds, ReserveStep, StoreStep;
    var st := s.prods[p];
    if st.Reserve? { ReserveKeeps(s, p, tried); }
    else if st.Store? { StoreKeeps(s, p, tried); }
    else { OtherKeeps(s, p, tried); }
  }

  lemma ConsumerLeaves(s: State, c: nat, timeUp: bool)
    requires s.cap > 0 && c in s.cons
    ensures var t := Consumed(s, c, timeUp);
            t.prods == s.prods && t.enq == s.enq && t.cap == s.cap && t.dropped == s.dropped && t.closed == s.closed
            && |t.resv| == |s.resv|
  {
  }

  ghost predicate AllNeed(tr: seq<State>, acts: seq<Action>, t: nat)
    requires t <= |acts| && |tr| == |acts| + 1
  {
    tr[t].cap > 0 &&
    forall p | p in tr[t].prods :: ProducerNeeds(tr[t].cap, tr[t].enq, tr[t].prods[p], LostRaces(tr, acts, t, p))
  }

  lemma NextNeeds(tr: seq<State>, acts: seq<Action>, t: nat)
    requires |tr| == |acts| + 1 && t < |acts| && AllNeed(tr, acts, t) && Next(tr[t], acts[t], tr[t + 1])
    ensures AllNeed(tr, acts, t + 1)
  {
    var s, a, u := tr[t], acts[t], tr[t + 1];
    if a.Produce? {
      assert ProducerNeeds(s.cap, s.enq, s.prods[a.p], LostRaces(tr, acts, t, a.p));
      ProducerKeeps(s, a.p, LostRaces(tr, acts, t, a.p));
      hide Produced;
      forall q | q in u.prods ensures ProducerNeeds(u.cap, u.enq, u.prods[q], LostRaces(tr, acts, t + 1, q)) {
        if q != a.p { assert ProducerNeeds(s.cap, s.enq, s.prods[q], LostRaces(tr, acts, t, q)); }
      }
    } else if a.Consume? {
      ConsumerLeaves(s, a.c, a.timeUp);
      hide Consumed;
      forall q | q in u.prods ensures ProducerNeeds(u.cap, u.enq, u.prods[q], LostRaces(tr, acts, t + 1, q)) {
        assert ProducerNeeds(s.cap, s.enq, s.prods[q], LostRaces(tr, acts, t, q));
      }
    } else {
      forall q | q in u.prods ensures ProducerNeeds(u.cap, u.enq, u.prods[q], LostRaces(tr, acts, t + 1, q)) {
        if u.prods[q] == s.prods[q] { assert ProducerNeeds(s.cap, s.enq, s.prods[q], LostRaces(tr, acts, t, q)); }
      }
    }
  }

  lemma {:induction false} RunNeeds(tr: seq<State>, acts: seq<Action>, t: nat)
    requires Run(tr, acts) && t < |tr|
    ensures AllNeed(tr, acts, t)
  {
    hide Next, ProducerNeeds, LostRaces;
    if t > 0 {
      RunNeeds(tr, acts, t - 1);
      NextNeeds(tr, acts, t - 1);
    } else {
      InitNeeds(tr, acts);
    }
  }

  lemma InitNeeds(tr: seq<State>, acts: seq<Action>)
    requires |tr| == |acts| + 1 && Init(tr[0])
    ensures AllNeed(tr, acts, 0)
  {
  }

  lemma DropIs(s: State, a: Action, t: State)
    requires s.cap > 0 && Next(s, a, t) && t.dropped > s.dropped && !s.closed
    ensures a.Produce? && a.p in s.prods
    ensures s.prods[a.p].TestSpace? && s.prods[a.p].pl.pos + s.prods[a.p].pl.len > s.deq + s.cap
  {
    if a.Consume? { ConsumerLeaves(s, a.c, a.timeUp); }
    hide Off, Image, PlanAt, Reservation, Poke, SetPhase, SetKicked;
  }

  /** Main result. An open ring drops a put only when the record did not fit: at some position
      up to enq, what a record of the message last put takes there reached beyond the words
      that are free. The record is as long as the message, or longer by the extensions
      carried over from the races this put has lost. */
  lemma DropsOnlyWhenFull(tr: seq<State>, acts: seq<Action>, t: nat) returns (pos: nat)
    requires Run(tr, acts) && t < |acts| && tr[t + 1].dropped > tr[t].dropped && !tr[t].closed
    ensures acts[t].Produce? && MpmcAccounting.LastPut(acts, t, acts[t].p).Some? && tr[t].cap > 0
    ensures var s, m := tr[t], MpmcAccounting.LastPut(acts, t, acts[t].p).value;
            var len := Carry(s.cap, HEADER + |m.payload|, LostRaces(tr, acts, t, acts[t].p));
            pos <= s.enq && pos + Takes(s.cap, len, pos) > s.deq + s.cap
  {
    hide Next;
    RunNeeds(tr, acts, t);
    var s := tr[t];
    DropIs(s, acts[t], tr[t + 1]);
    MpmcAccounting.CarriesLastPut(tr, acts, t);
    var p := acts[t].p;
    assert ProducerNeeds(s.cap, s.enq, s.prods[p], LostRaces(tr, acts, t, p));
    var pl := s.prods[p].pl;
    assert MpmcAccounting.Carried(s.prods[p]) == Some(pl.m);
    assert MpmcAccounting.LastPut(acts, t, p) == Some(pl.m);
    pos := pl.pos;
  }

  /** For a put that has lost no race: an open ring that has free, from every position it may
      have read, room for the record and the words up to the boundary never drops it. */
  lemma NoDropWithRoom(tr: seq<State>, acts: seq<Action>, t: nat, p: nat, m: Msg)
    requires Run(tr, acts) && t < |acts| && acts[t] == Produce(p) && !tr[t].closed
    requires MpmcAccounting.LastPut(acts, t, p) == Some(m) && LostRaces(tr, acts, t, p) == []
    requires tr[t].enq + 2 * HEADER + |m.payload| <= tr[t].deq + tr[t].cap
    ensures tr[t + 1].dropped <= tr[t].dropped
  {
    if tr[t + 1].dropped > tr[t].dropped { var pos := DropsOnlyWhenFull(tr, acts, t); }
  }

  // ---------------------------------------------------------------- a closed ring

  /** No put is past its test of the closed flag. */
  ghost predicate NothingPending(s: State) {
    s.closed && forall p | p in s.prods :: s.prods[p].Idle? || s.prods[p].TestClosed?
  }

  lemma ClosedStep(s: State, a: Action, t: State)
    requires s.cap > 0 && Next(s, a, t) && NothingPending(s)
    ensures NothingPending(t) && |t.resv| == |s.resv|
  {
    if a.Consume? {
      ConsumerLeaves(s, a.c, a.timeUp);
      hide Consumed;
    }
  }

  /** Once the ring is closed and no put is past its test, nothing enters any more: every
      later put is dropped. */
  lemma {:induction false} ClosedRefuses(tr: seq<State>, acts: seq<Action>, t: nat, u: nat)
    requires Run(tr, acts) && t <= u < |tr| && NothingPending(tr[t])
    ensures NothingPending(tr[u]) && |tr[u].resv| == |tr[t].resv|
  {
    if t < u {
      ClosedRefuses(tr, acts, t, u - 1);
      assert Next(tr[u - 1], acts[u - 1], tr[u]);
      hide Next;
      ClosedStep(tr[u - 1], acts[u - 1], tr[u]);
    }
  }
}
