/** The lock-free ring in MPMC mode with the discard policy, as a transition system with
    one step per atomic access and per word copied. Any number of producers run
    hpu_ring_put and any number of consumers run hpu_ring_get, in any interleaving;
    memory is sequentially consistent. */
module MpmcRing {
  import opened Options
  import opened RingLayout

  datatype Producer =
    | Idle
    | TestClosed(m: Msg)
    | ReadEnq(m: Msg, total: nat)
    | TestSpace(pl: Plan, second: bool)
    | Reserve(pl: Plan)
    | Store(pl: Plan, rec: nat, n: nat)
    | Kick(rec: nat)
    | KickLocked(rec: nat)

  datatype Consumer =
    | Outside
    | ReadDeq
    | ReadTail(d: nat)
    | Fresh(d: nat)
    | ReadMark(d: nat)
    | Gate(d: nat)
    | Claim(d: nat)
    | ReadLen(d: nat)
    | ReadFlags(d: nat, total: nat)
    | Copy(d: nat, total: nat, words: seq<nat>)
    | Advance(d: nat, total: nat, words: seq<nat>)
    | Skip(d: nat, total: nat)
    | NothingThere
    | ParkLock
    | ParkCount
    | ParkDeq
    | ParkEnq(d: nat)
    | ParkWait(e: nat)
    | Parked(e: nat)
    | Woken
    | Unpark
    | ParkUnlock
    | Done(got: Option<nat>)

  /** One record handed out by get: its position, the thread, and the staged words. */
  datatype Delivery = Delivery(pos: nat, reader: nat, words: seq<nat>)

  datatype State = State(
    cap: nat, enq: nat, deq: nat, mem: seq<Word>, closed: bool, dropped: nat,
    waiting: nat, mutex: Option<nat>,
    prods: map<nat, Producer>, cons: map<nat, Consumer>,
    // history
    resv: seq<Resv>, k: nat, delivered: seq<Delivery>)

  datatype Action =
    | Put(p: nat, m: Msg)
    | Produce(p: nat)
    | Get(c: nat)
    | Consume(c: nat, timeUp: bool)
    | Close
    | KickConsumer

  predicate Init(s: State) {
    && CapOk(s.cap) && |s.mem| == s.cap
    && (forall x | 0 <= x < s.cap :: s.mem[x].Plain?)  // fresh memory, any bytes at all
    && s.enq == s.deq == s.dropped == s.waiting == s.k == 0
    && !s.closed && s.mutex.None? && s.resv == [] && s.delivered == []
    && (forall p | p in s.prods :: s.prods[p] == Idle)
    && (forall c | c in s.cons :: s.cons[c] == Outside)
  }

  /** History: the producer of entry i has sent its wakeup, or found nobody waiting. */
  function SetKicked(resv: seq<Resv>, i: nat): seq<Resv> {
    if i < |resv| then resv[i := resv[i].(kicked := true)] else resv
  }

  // ---------------------------------------------------------------- put

  function AtP(s: State, p: nat, st: Producer): State { s.(prods := s.prods[p := st]) }

  function Drop(s: State, p: nat): State { AtP(s, p, Idle).(dropped := s.dropped + 1) }

  function ReserveStep(s: State, p: nat, pl: Plan): State
    requires s.cap > 0
  {
    if s.enq == pl.pos then
      AtP(s, p, Store(pl, |s.resv|, 0)).(
        enq := pl.pos + pl.len,
        resv := s.resv + [Reservation(s.cap, p, pl, 0)])
    else
      AtP(s, p, ReadEnq(pl.m, pl.total))
  }

  function StoreStep(s: State, p: nat, pl: Plan, i: nat, n: nat): State
    requires s.cap > 0
  {
    var image := Image(Content(pl), pl.len);
    var off := Off(s.cap, pl.pos);
    if n == 0 then
      AtP(s, p, Store(pl, i, 1)).(mem := Poke(s.mem, off, Commit(0, i)),
                                  resv := SetPhase(s.resv, i, Writing(1)))
    else if n <= |image| then
      AtP(s, p, Store(pl, i, n + 1)).(mem := Poke(s.mem, off + n, Plain(image[n - 1])),
                                      resv := SetPhase(s.resv, i, Writing(n + 1)))
    else
      AtP(s, p, if pl.pad then ReadEnq(pl.m, pl.total) else Kick(i)).(
        mem := Poke(s.mem, off, Commit(8 * pl.pos + 1, i)),
        resv := SetPhase(s.resv, i, Published))
  }

  function Wake(cons: map<nat, Consumer>): map<nat, Consumer> {
    map c | c in cons :: if cons[c].Parked? then Woken else cons[c]
  }

  function Produced(s: State, p: nat): State
    requires s.cap > 0 && p in s.prods
  {
    match s.prods[p]
    case Idle => s
    case TestClosed(m) => if s.closed then Drop(s, p) else AtP(s, p, ReadEnq(m, RecordLen(m)))
    case ReadEnq(m, total) => AtP(s, p, TestSpace(PlanAt(s.cap, m, total, s.enq), false))
    case TestSpace(pl, second) =>
      if pl.pos + pl.len <= s.deq + s.cap then AtP(s, p, Reserve(pl))
      else if second then Drop(s, p)
      else AtP(s, p, TestSpace(pl, true))
    case Reserve(pl) => ReserveStep(s, p, pl)
    case Store(pl, i, n) => StoreStep(s, p, pl, i, n)
    case Kick(i) =>
      if s.waiting == 0 then AtP(s, p, Idle).(resv := SetKicked(s.resv, i))
      else AtP(s, p, KickLocked(i))
    case KickLocked(i) =>
      if s.mutex.Some? then s
      else AtP(s, p, Idle).(resv := SetKicked(s.resv, i), cons := Wake(s.cons))
  }

  // ---------------------------------------------------------------- get

  function AtC(s: State, c: nat, st: Consumer): State { s.(cons := s.cons[c := st]) }

  function ClaimStep(s: State, c: nat, d: nat): State
    requires s.cap > 0
  {
    var x := Off(s.cap, d);
    if Load(s.mem, x).raw == 8 * d + 1 then
      AtC(s, c, ReadLen(d)).(mem := Poke(s.mem, x, Commit(8 * d + 2, s.k)),
                             resv := SetPhase(s.resv, s.k, Leased(c)))
    else
      AtC(s, c, ReadDeq)
  }

  function AdvanceStep(s: State, c: nat, d: nat, total: nat, words: seq<nat>): State {
    // the result of the CAS is ignored: the record is handed out either way
    var t := AtC(s, c, Done(Some(d))).(delivered := s.delivered + [Delivery(d, c, words)]);
    if s.deq == d then t.(deq := d + total, k := s.k + 1) else t
  }

  function SkipStep(s: State, c: nat, d: nat, total: nat): State {
    var t := AtC(s, c, ReadDeq);
    if s.deq == d then t.(deq := d + total, k := s.k + 1) else t
  }

  /** Where a step that only reads shared memory takes a consumer. `timeUp` says the
      deadline has passed when the step looks at the clock. */
  function Glance(s: State, st: Consumer, timeUp: bool): Consumer
    requires s.cap > 0
  {
    match st
    case ReadDeq => ReadTail(s.deq)
    case ReadTail(d) => if d < s.enq then Fresh(d) else NothingThere
    case Fresh(d) => if s.deq == d then ReadMark(d) else ReadDeq
    case ReadMark(d) =>
      var m := Load(s.mem, Off(s.cap, d)).raw;
      if m == 8 * d + 1 then Gate(d) else if m > 8 * d + 1 then ReadDeq
      else if timeUp then Done(None) else Fresh(d)
    case Gate(d) => if s.deq == d then Claim(d) else ReadDeq
    case ReadLen(d) =>
      var bytes := TotalLen(Load(s.mem, Off(s.cap, d) + 4).raw);
      if bytes < 8 * HEADER || bytes > 8 * s.cap then Skip(d, HEADER) else ReadFlags(d, bytes / 8)
    case ReadFlags(d, total) =>
      if PadFlag(Load(s.mem, Off(s.cap, d) + 5).raw) then Skip(d, total) else Copy(d, total, [])
    case Copy(d, total, words) =>
      if |words| < total then Copy(d, total, words + [Load(s.mem, Off(s.cap, d) + |words|).raw])
      else Advance(d, total, words)
    case NothingThere => if s.closed || timeUp then Done(None) else ParkLock
    case ParkDeq => ParkEnq(s.deq)
    case ParkEnq(d) => if d >= s.enq && !timeUp then ParkWait(s.enq) else Unpark
    case Parked(_) => if timeUp then Woken else st
    case _ => st
  }

  /** The steps of lf_wait on the mutex and the waiting counter. */
  function ParkStep(s: State, c: nat, st: Consumer): State {
    match st
    case ParkLock => if s.mutex.Some? then s else AtC(s, c, ParkCount).(mutex := Some(c))
    case ParkCount => AtC(s, c, ParkDeq).(waiting := s.waiting + 1)
    case ParkWait(e) => AtC(s, c, Parked(e)).(mutex := None)
    case Woken => if s.mutex.Some? then s else AtC(s, c, Unpark).(mutex := Some(c))
    case Unpark => AtC(s, c, ParkUnlock).(waiting := if s.waiting > 0 then s.waiting - 1 else 0)
    case ParkUnlock => AtC(s, c, ReadDeq).(mutex := None)
    case _ => s
  }

  predicate Parks(st: Consumer) {
    st.ParkLock? || st.ParkCount? || st.ParkWait? || st.Woken? || st.Unpark? || st.ParkUnlock?
  }

  function Consumed(s: State, c: nat, timeUp: bool): State
    requires s.cap > 0 && c in s.cons
  {
    var st := s.cons[c];
    if st.Claim? then ClaimStep(s, c, st.d)
    else if st.Advance? then AdvanceStep(s, c, st.d, st.total, st.words)
    else if st.Skip? then SkipStep(s, c, st.d, st.total)
    else if Parks(st) then ParkStep(s, c, st)
    else AtC(s, c, Glance(s, st, timeUp))
  }

  // ---------------------------------------------------------------- runs

  ghost predicate Next(s: State, a: Action, t: State)
    requires s.cap > 0
  {
    match a
    case Put(p, m) => p in s.prods && s.prods[p].Idle? && MsgOk(s.cap, m) && t == AtP(s, p, TestClosed(m))
    case Produce(p) => p in s.prods && t == Produced(s, p)
    case Get(c) => c in s.cons && (s.cons[c].Outside? || s.cons[c].Done?) && t == AtC(s, c, ReadDeq)
    case Consume(c, timeUp) => c in s.cons && t == Consumed(s, c, timeUp)
    case Close => t == s.(closed := true)
    case KickConsumer => t == if s.waiting > 0 && s.mutex.None? then s.(cons := Wake(s.cons)) else s
  }

  /** The hypothesis the protocol rests on: a lease CAS never finds its expected marker
      in a word that is not a commit word (payload, or memory not yet initialised). */
  predicate NoAlias(s: State, a: Action)
    requires s.cap > 0
  {
    a.Consume? && a.c in s.cons && s.cons[a.c].Claim? ==>
      var w := Load(s.mem, Off(s.cap, s.cons[a.c].d));
      w.raw == 8 * s.cons[a.c].d + 1 ==> w.Commit?
  }

  ghost predicate Run(tr: seq<State>, acts: seq<Action>) {
    && |tr| == |acts| + 1 && Init(tr[0])
    && (forall t | 0 <= t < |acts| :: tr[t].cap > 0 && Next(tr[t], acts[t], tr[t + 1]))
  }

  ghost predicate Unaliased(tr: seq<State>, acts: seq<Action>) {
    |tr| == |acts| + 1 && forall t | 0 <= t < |acts| :: tr[t].cap > 0 && NoAlias(tr[t], acts[t])
  }
}
