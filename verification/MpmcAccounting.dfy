/** Where every put of the MPMC ring goes, and why the alias hypothesis is needed. */
module MpmcAccounting {
  import opened Options
  import opened RingLayout
  import opened MpmcRing
  import MpmcTheorems

  // ---------------------------------------------------------------- conservation

  /** The message of a put that has neither reserved its record nor been dropped. */
  predicate Pending(st: Producer) {
    match st
    case TestClosed(_) => true
    case ReadEnq(_, _) => true
    case TestSpace(_, _) => true
    case Reserve(_) => true
    case Store(pl, _, _) => pl.pad
    case _ => false
  }

  ghost function InFlight(prods: map<nat, Producer>): set<nat> { set p | p in prods && Pending(prods[p]) }

  function Puts(acts: seq<Action>, t: nat): nat
    requires t <= |acts|
  {
    if t == 0 then 0 else Puts(acts, t - 1) + if acts[t - 1].Put? then 1 else 0
  }

  ghost predicate Accounted(s: State, puts: nat) {
    puts == |NonPads(s.resv, |s.resv|)| + s.dropped + |InFlight(s.prods)|
  }

  lemma {:induction false} NonPadsSame(resv: seq<Resv>, resv': seq<Resv>, k: nat)
    requires k <= |resv| && k <= |resv'| && forall i | 0 <= i < k :: resv'[i].msg == resv[i].msg
    ensures NonPads(resv', k) == NonPads(resv, k)
  {
    if k > 0 { NonPadsSame(resv, resv', k - 1); }
  }

  lemma Settle(s: State, p: nat, st: Producer)
    requires p in s.prods
    ensures Pending(s.prods[p]) == Pending(st) ==> InFlight(s.prods[p := st]) == InFlight(s.prods)
    ensures Pending(s.prods[p]) && !Pending(st) ==> |InFlight(s.prods[p := st])| == |InFlight(s.prods)| - 1
    ensures !Pending(s.prods[p]) && Pending(st) ==> |InFlight(s.prods[p := st])| == |InFlight(s.prods)| + 1
  {
    var before, after := InFlight(s.prods), InFlight(s.prods[p := st]);
    if Pending(s.prods[p]) == Pending(st) { assert after == before; }
    else if Pending(st) { assert after == before + {p} && p !in before; }
    else { assert after == before - {p} && p in before; }
  }

  lemma ReserveAccounts(s: State, p: nat, pl: Plan)
    requires s.cap > 0 && p in s.prods && s.prods[p] == Reserve(pl)
    ensures var t := ReserveStep(s, p, pl);
            |NonPads(t.resv, |t.resv|)| + |InFlight(t.prods)| == |NonPads(s.resv, |s.resv|)| + |InFlight(s.prods)|
  {
    var t := ReserveStep(s, p, pl);
    Settle(s, p, t.prods[p]);
    NonPadsSame(s.resv, t.resv, |s.resv|);
  }

  lemma StoreAccounts(s: State, p: nat, pl: Plan, i: nat, n: nat)
    requires s.cap > 0 && p in s.prods && s.prods[p] == Store(pl, i, n)
    ensures var t := StoreStep(s, p, pl, i, n);
            t.dropped == s.dropped && |InFlight(t.prods)| == |InFlight(s.prods)| && |t.resv| == |s.resv|
            && NonPads(t.resv, |t.resv|) == NonPads(s.resv, |s.resv|)
  {
    var t := StoreStep(s, p, pl, i, n);
    Settle(s, p, t.prods[p]);
    NonPadsSame(s.resv, t.resv, |s.resv|);
  }

  lemma ProducerAccounts(s: State, p: nat, puts: nat)
    requires s.cap > 0 && p in s.prods && Accounted(s, puts)
    ensures Accounted(Produced(s, p), puts)
  {
    var st := s.prods[p];
    if st.Reserve? {
      ReserveAccounts(s, p, st.pl);
    } else if st.Store? {
      StoreAccounts(s, p, st.pl, st.rec, st.n);
    } else if st.Kick? || st.KickLocked? {
      Settle(s, p, Idle);
      Settle(s, p, KickLocked(st.rec));
      NonPadsSame(s.resv, SetKicked(s.resv, st.rec), |s.resv|);
    } else {
      Settle(s, p, Produced(s, p).prods[p]);
    }
  }

  lemma ConsumerAccounts(s: State, c: nat, timeUp: bool, puts: nat)
    requires s.cap > 0 && c in s.cons && Accounted(s, puts)
    ensures Accounted(Consumed(s, c, timeUp), puts)
  {
    var st := s.cons[c];
    if st.Claim? {
      NonPadsSame(s.resv, ClaimStep(s, c, st.d).resv, |s.resv|);
    } else if !st.Advance? && !st.Skip? {
      MpmcTheorems.ConsumerTouches(s, c, timeUp);
    }
  }

  lemma CallAccounts(s: State, a: Action, t: State, puts: nat)
    requires s.cap > 0 && Next(s, a, t) && Accounted(s, puts) && !a.Produce? && !a.Consume?
    ensures Accounted(t, puts + if a.Put? then 1 else 0)
  {
    if a.Put? { Settle(s, a.p, TestClosed(a.m)); }
  }

  lemma StepAccounts(s: State, a: Action, t: State, puts: nat)
    requires s.cap > 0 && Next(s, a, t) && Accounted(s, puts)
    ensures Accounted(t, puts + if a.Put? then 1 else 0)
  {
    hide Accounted, Produced, Consumed;
    match a
    case Produce(p) => ProducerAccounts(s, p, puts);
    case Consume(c, timeUp) => ConsumerAccounts(s, c, timeUp, puts);
    case _ => CallAccounts(s, a, t, puts);
  }

  lemma StartsAccounted(s: State)
    requires Init(s)
    ensures Accounted(s, 0)
  {
    assert InFlight(s.prods) == {};
  }

  /** Every put is one reserved record, or one counted drop, or still in progress. */
  lemma {:induction false} EveryPutAccounted(tr: seq<State>, acts: seq<Action>, t: nat)
    requires Run(tr, acts) && t < |tr|
    ensures Accounted(tr[t], Puts(acts, t))
  {
    hide Accounted, Next, Init;
    if t == 0 {
      StartsAccounted(tr[0]);
    } else {
      EveryPutAccounted(tr, acts, t - 1);
      StepAccounts(tr[t - 1], acts[t - 1], tr[t], Puts(acts, t - 1));
    }
  }

  // ---------------------------------------------------------------- the message of the put

  function Carried(st: Producer): Option<Msg> {
    match st
    case TestClosed(m) => Some(m)
    case ReadEnq(m, _) => Some(m)
    case TestSpace(pl, _) => Some(pl.m)
    case Reserve(pl) => Some(pl.m)
    case Store(pl, _, _) => Some(pl.m)
    case _ => None
  }

  function LastPut(acts: seq<Action>, t: nat, p: nat): Option<Msg>
    requires t <= |acts|
  {
    if t == 0 then None
    else if acts[t - 1].Put? && acts[t - 1].p == p then Some(acts[t - 1].m)
    else LastPut(acts, t - 1, p)
  }

  lemma ProducerCarries(s: State, p: nat)
    requires s.cap > 0 && p in s.prods
    ensures var t := Produced(s, p);
            t.prods == s.prods[p := t.prods[p]]
            && (Carried(t.prods[p]).Some? ==> Carried(t.prods[p]) == Carried(s.prods[p]))
  {
    var st := s.prods[p];
    assert s.prods[p := st] == s.prods;
    if st.Reserve? { assert Produced(s, p) == ReserveStep(s, p, st.pl); }
    else if st.Store? { assert Produced(s, p) == StoreStep(s, p, st.pl, st.rec, st.n); }
  }

  /** Every producer in a put carries the message it was last called with. */
  ghost predicate CarryOk(prods: map<nat, Producer>, acts: seq<Action>, t: nat)
    requires t <= |acts|
  {
    forall p | p in prods && Carried(prods[p]).Some? :: Carried(prods[p]) == LastPut(acts, t, p)
  }

  lemma StepCarries(s: State, a: Action, u: State, acts: seq<Action>, t: nat)
    requires s.cap > 0 && Next(s, a, u) && 0 < t <= |acts| && acts[t - 1] == a && CarryOk(s.prods, acts, t - 1)
    ensures CarryOk(u.prods, acts, t)
  {
    if a.Produce? {
      ProducerCarries(s, a.p);
      hide Produced, Carried;
    } else if a.Consume? {
      ConsumerLeaves(s, a.c, a.timeUp);
      hide Consumed, Carried;
    }
  }

  lemma ConsumerLeaves(s: State, c: nat, timeUp: bool)
    requires s.cap > 0 && c in s.cons
    ensures Consumed(s, c, timeUp).prods == s.prods
  {
  }

  lemma {:induction false} CarriesLastPut(tr: seq<State>, acts: seq<Action>, t: nat)
    requires Run(tr, acts) && t < |tr|
    ensures CarryOk(tr[t].prods, acts, t)
  {
    hide Next;
    if t > 0 {
      CarriesLastPut(tr, acts, t - 1);
      StepCarries(tr[t - 1], acts[t - 1], tr[t], acts, t);
    }
  }

  /** A record that enters the log holds the message its producer was last called with. */
  lemma ReservesTheMessagePut(tr: seq<State>, acts: seq<Action>, t: nat, p: nat)
    requires Run(tr, acts) && t < |acts| && acts[t] == Produce(p)
    requires |tr[t + 1].resv| > |tr[t].resv|
    ensures |tr[t + 1].resv| == |tr[t].resv| + 1
    ensures var r := tr[t + 1].resv[|tr[t].resv|];
            r.owner == p && (r.msg.Some? ==> r.msg == LastPut(acts, t, p))
  {
    CarriesLastPut(tr, acts, t);
    assert Next(tr[t], acts[t], tr[t + 1]);
  }

  // ---------------------------------------------------------------- the hypothesis is needed

  /** The ring of 14 words after one producer reserved position 0 and before it wrote a
      word, in memory whose first word happens to hold 1, the marker of position 0. */
  ghost function Reserved(): State {
    var m := Msg(0, 0, 0, 0, 0, 0, 0, []);
    var pl := Plan(m, 7, 0, 7, false);
    AtP(FreshRing(), 0, Store(pl, 0, 0)).(enq := 7, resv := [Reservation(14, 0, pl, 0)])
  }

  ghost function FreshRing(): State {
    State(14, 0, 0, [Plain(1)] + seq(13, _ => Plain(0)), false, 0, 0, None,
          map[0 := Idle], map[0 := Outside], [], 0, [])
  }

  lemma AtPTwice(s: State, a: Producer, b: Producer)
    ensures AtP(AtP(s, 0, a), 0, b) == AtP(s, 0, b)
  {
    assert s.prods[0 := a][0 := b] == s.prods[0 := b];
  }

  lemma PutReserves(m: Msg, pl: Plan)
    requires m == Msg(0, 0, 0, 0, 0, 0, 0, []) && pl == Plan(m, 7, 0, 7, false)
    ensures var s := FreshRing();
            && Init(s) && MsgOk(14, m)
            && Produced(AtP(s, 0, TestClosed(m)), 0) == AtP(s, 0, ReadEnq(m, 7))
            && Produced(AtP(s, 0, ReadEnq(m, 7)), 0) == AtP(s, 0, TestSpace(pl, false))
            && Produced(AtP(s, 0, TestSpace(pl, false)), 0) == AtP(s, 0, Reserve(pl))
            && Produced(AtP(s, 0, Reserve(pl)), 0) == Reserved()
  {
    var s := FreshRing();
    assert Off(14, 0) == 0;
    AtPTwice(s, TestClosed(m), ReadEnq(m, 7));
    AtPTwice(s, ReadEnq(m, 7), TestSpace(pl, false));
    AtPTwice(s, TestSpace(pl, false), Reserve(pl));
    AtPTwice(s, Reserve(pl), Store(pl, 0, 0));
  }

  lemma ReservedShape()
    ensures var s := Reserved();
            && s.cap == 14 && s.enq == 7 && s.deq == 0 && Load(s.mem, Off(s.cap, 0)).raw == 1
            && s.cons == map[0 := Outside] && 0 in s.prods && s.prods[0].Store? && s.prods[0].n == 0
  {
    assert Off(14, 0) == 0;
  }

  lemma Glances(s: State, a: Consumer)
    requires s.cap > 0 && 0 in s.cons && !a.Claim? && !a.Advance? && !a.Skip? && !Parks(a)
    ensures 0 in AtC(s, 0, a).cons
    ensures Consumed(AtC(s, 0, a), 0, false) == AtC(s, 0, Glance(s, a, false))
  {
    var b := Glance(s, a, false);
    assert s.cons[0 := a][0 := b] == s.cons[0 := b];
    assert Glance(AtC(s, 0, a), a, false) == b;
  }

  lemma GetClaims()
    ensures var s := Reserved();
            && s.cap > 0
            && Consumed(AtC(s, 0, ReadDeq), 0, false) == AtC(s, 0, ReadTail(0))
            && Consumed(AtC(s, 0, ReadTail(0)), 0, false) == AtC(s, 0, Consumer.Fresh(0))
            && Consumed(AtC(s, 0, Consumer.Fresh(0)), 0, false) == AtC(s, 0, ReadMark(0))
            && Consumed(AtC(s, 0, ReadMark(0)), 0, false) == AtC(s, 0, Gate(0))
            && Consumed(AtC(s, 0, Gate(0)), 0, false) == AtC(s, 0, Claim(0))
  {
    ReservedShape();
    var s := Reserved();
    hide Reserved, Consumed, AtC;
    Glances(s, ReadDeq);
    Glances(s, ReadTail(0));
    Glances(s, Consumer.Fresh(0));
    Glances(s, ReadMark(0));
    Glances(s, Gate(0));
  }

  ghost function LeasedTooEarly(): State {
    ReservedShape();
    Consumed(AtC(Reserved(), 0, Claim(0)), 0, false)
  }

  lemma ClaimLeases()
    ensures var t := LeasedTooEarly(); 0 in t.cons && t.cons[0] == ReadLen(0) && t.prods == Reserved().prods
  {
    ReservedShape();
    var s := Reserved();
    hide Reserved;
    assert AtC(s, 0, Claim(0)).cons[0] == Claim(0);
  }

  ghost predicate Reachable(s: State) {
    exists tr: seq<State>, acts: seq<Action> :: Run(tr, acts) && tr[|acts|] == s
  }

  lemma Reach(s: State, a: Action, t: State)
    requires Reachable(s) && s.cap > 0 && Next(s, a, t)
    ensures Reachable(t)
  {
    var tr: seq<State>, acts: seq<Action> :| Run(tr, acts) && tr[|acts|] == s;
    var tr', acts' := tr + [t], acts + [a];
    forall x | 0 <= x < |acts'| ensures tr'[x].cap > 0 && Next(tr'[x], acts'[x], tr'[x + 1]) {
      if x < |acts| { assert Next(tr[x], acts[x], tr[x + 1]); }
    }
    assert Run(tr', acts') && tr'[|acts'|] == t;
  }

  lemma InitReachable(s: State)
    requires Init(s)
    ensures Reachable(s)
  {
    var none: seq<Action> := [];
    assert Run([s], none) && [s][|none|] == s;
  }

  lemma GetReaches(h: State, last: State)
    requires h.cap > 0 && Reachable(h) && 0 in h.cons && h.cons[0].Outside?
    requires Consumed(AtC(h, 0, ReadDeq), 0, false) == AtC(h, 0, ReadTail(0))
    requires Consumed(AtC(h, 0, ReadTail(0)), 0, false) == AtC(h, 0, Consumer.Fresh(0))
    requires Consumed(AtC(h, 0, Consumer.Fresh(0)), 0, false) == AtC(h, 0, ReadMark(0))
    requires Consumed(AtC(h, 0, ReadMark(0)), 0, false) == AtC(h, 0, Gate(0))
    requires Consumed(AtC(h, 0, Gate(0)), 0, false) == AtC(h, 0, Claim(0))
    requires Consumed(AtC(h, 0, Claim(0)), 0, false) == last
    ensures Reachable(last)
  {
    Reach(h, Get(0), AtC(h, 0, ReadDeq));
    Reach(AtC(h, 0, ReadDeq), Consume(0, false), AtC(h, 0, ReadTail(0)));
    Reach(AtC(h, 0, ReadTail(0)), Consume(0, false), AtC(h, 0, Consumer.Fresh(0)));
    Reach(AtC(h, 0, Consumer.Fresh(0)), Consume(0, false), AtC(h, 0, ReadMark(0)));
    Reach(AtC(h, 0, ReadMark(0)), Consume(0, false), AtC(h, 0, Gate(0)));
    Reach(AtC(h, 0, Gate(0)), Consume(0, false), AtC(h, 0, Claim(0)));
    Reach(AtC(h, 0, Claim(0)), Consume(0, false), last);
  }

  lemma PutReaches(s: State, h: State, m: Msg, pl: Plan)
    requires s.cap > 0 && Reachable(s) && 0 in s.prods && s.prods[0].Idle? && MsgOk(s.cap, m)
    requires Produced(AtP(s, 0, TestClosed(m)), 0) == AtP(s, 0, ReadEnq(m, 7))
    requires Produced(AtP(s, 0, ReadEnq(m, 7)), 0) == AtP(s, 0, TestSpace(pl, false))
    requires Produced(AtP(s, 0, TestSpace(pl, false)), 0) == AtP(s, 0, Reserve(pl))
    requires Produced(AtP(s, 0, Reserve(pl)), 0) == h
    ensures Reachable(h)
  {
    Reach(s, Put(0, m), AtP(s, 0, TestClosed(m)));
    Reach(AtP(s, 0, TestClosed(m)), Produce(0), AtP(s, 0, ReadEnq(m, 7)));
    Reach(AtP(s, 0, ReadEnq(m, 7)), Produce(0), AtP(s, 0, TestSpace(pl, false)));
    Reach(AtP(s, 0, TestSpace(pl, false)), Produce(0), AtP(s, 0, Reserve(pl)));
    Reach(AtP(s, 0, Reserve(pl)), Produce(0), h);
  }

  lemma ReservedReachable()
    ensures Reachable(Reserved())
  {
    var m := Msg(0, 0, 0, 0, 0, 0, 0, []);
    PutReserves(m, Plan(m, 7, 0, 7, false));
    InitReachable(FreshRing());
    PutReaches(FreshRing(), Reserved(), m, Plan(m, 7, 0, 7, false));
  }

  lemma LeasedReachable()
    ensures Reachable(LeasedTooEarly())
  {
    ReservedReachable();
    ReservedShape();
    GetClaims();
    hide Reserved, Reachable, Consumed;
    GetReaches(Reserved(), LeasedTooEarly());
  }

  /** Without the hypothesis a consumer can lease a record its producer has not begun to write. */
  lemma AliasBreaksTheLease()
    ensures exists s: State :: Reachable(s) && 0 in s.cons && s.cons[0] == ReadLen(0)
                               && 0 in s.prods && s.prods[0].Store? && s.prods[0].n == 0
  {
    LeasedReachable();
    ReservedShape();
    ClaimLeases();
    hide LeasedTooEarly, Reserved, Reachable;
    var s := LeasedTooEarly();
    assert Reachable(s);
  }
}
