/** The lock-free ring in SPSC mode with the overwrite policy, as a transition system: one
    producer that steals the oldest records when the ring is full, one consumer that copies
    first and validates afterwards. One step per atomic access and per word copied,
    sequentially consistent. */
module SpscRing {
  import opened Options
  import opened RingLayout

  datatype Producer =
    | Idle
    | TestClosed(m: Msg)
    | ReadEnq(m: Msg, total: nat)
    | TestSpace(pl: Plan, second: bool)
    | StealDeq(pl: Plan)
    // stealing: `rec` is history, the log index of the record at d
    | StealLen(pl: Plan, d: nat, rec: nat)
    | StealMark(pl: Plan, d: nat, rec: nat, oldLen: nat)
    | StealCas(pl: Plan, d: nat, rec: nat, oldLen: nat)
    | StealFlags(pl: Plan, d: nat, rec: nat)
    | Reserve(pl: Plan)
    | Store(pl: Plan, n: nat)

  datatype Consumer =
    | Outside
    | ReadDeq
    | ReadTail(d: nat)
    | Fresh(d: nat)
    | ReadMark(d: nat)
    | ReadLen(d: nat)
    | ReadFlags(d: nat, total: nat)
    | Copy(d: nat, total: nat, words: seq<nat>)
    | Check(d: nat, total: nat, words: seq<nat>)
    | Advance(d: nat, total: nat, words: seq<nat>)
    | Skip(d: nat, total: nat)
    | Done(got: Option<nat>)

  datatype Delivery = Delivery(pos: nat, words: seq<nat>)

  /** How deq passed a record: the consumer took it, the consumer skipped a pad, or the
      producer stole it. */
  datatype Fate = Taken | Skipped | Stolen

  datatype State = State(
    cap: nat, enq: nat, deq: nat, mem: seq<Word>, closed: bool, dropped: nat, overwritten: nat,
    prod: Producer, con: Consumer,
    // history: the log, how deq passed its first |fates| entries, what get handed out
    resv: seq<Resv>, fates: seq<Fate>, delivered: seq<Delivery>)

  datatype Action = Put(m: Msg) | Produce | Get | Consume(timeUp: bool) | Close

  predicate Init(s: State) {
    && CapOk(s.cap) && |s.mem| == s.cap && (forall x | 0 <= x < s.cap :: s.mem[x].Plain?)
    && s.enq == s.deq == s.dropped == s.overwritten == 0 && !s.closed
    && s.prod == Idle && s.con == Outside && s.resv == [] && s.fates == [] && s.delivered == []
  }

  // ---------------------------------------------------------------- put

  function StoreStep(s: State, pl: Plan, n: nat): State
    requires s.cap > 0 && |s.resv| > 0
  {
    var i := |s.resv| - 1;
    var image := Image(Content(pl), pl.len);
    var off := Off(s.cap, pl.pos);
    if n == 0 then
      s.(prod := Store(pl, 1), mem := Poke(s.mem, off, Commit(0, i)), resv := SetPhase(s.resv, i, Writing(1)))
    else if n <= |image| then
      s.(prod := Store(pl, n + 1), mem := Poke(s.mem, off + n, Plain(image[n - 1])),
         resv := SetPhase(s.resv, i, Writing(n + 1)))
    else
      s.(prod := if pl.pad then ReadEnq(pl.m, pl.total) else Idle,
         mem := Poke(s.mem, off, Commit(8 * pl.pos + 1, i)), resv := SetPhase(s.resv, i, Published))
  }

  function StealStep(s: State): State
    requires s.cap > 0
  {
    match s.prod
    case StealDeq(pl) =>
      if pl.pos + pl.len <= s.deq + s.cap
      then s.(prod := if pl.pad then Reserve(pl) else ReadEnq(pl.m, pl.total))
      else s.(prod := StealLen(pl, s.deq, |s.fates|))
    case StealLen(pl, d, rec) =>
      var bytes := TotalLen(Load(s.mem, Off(s.cap, d) + 4).raw);
      if bytes < 8 * HEADER || bytes > 8 * s.cap then s.(prod := Idle, dropped := s.dropped + 1)
      else s.(prod := StealMark(pl, d, rec, bytes / 8))
    case StealMark(pl, d, rec, oldLen) =>
      s.(prod := StealCas(pl, d, rec, oldLen), mem := Poke(s.mem, Off(s.cap, d), Commit(0, 0)))
    case StealCas(pl, d, rec, oldLen) =>
      if s.deq == d then s.(prod := StealFlags(pl, d, rec), deq := d + oldLen, fates := s.fates + [Stolen])
      else s.(prod := StealDeq(pl))
    case StealFlags(pl, d, rec) =>
      s.(prod := StealDeq(pl),
         overwritten := s.overwritten + if PadFlag(Load(s.mem, Off(s.cap, d) + 5).raw) then 0 else 1)
    case _ => s
  }

  predicate Stealing(st: Producer) {
    st.StealDeq? || st.StealLen? || st.StealMark? || st.StealCas? || st.StealFlags?
  }

  function Produced(s: State): State
    requires s.cap > 0
  {
    if Stealing(s.prod) then StealStep(s) else
    match s.prod
    case TestClosed(m) =>
      if s.closed then s.(prod := Idle, dropped := s.dropped + 1) else s.(prod := ReadEnq(m, RecordLen(m)))
    case ReadEnq(m, total) => s.(prod := TestSpace(PlanAt(s.cap, m, total, s.enq), false))
    case TestSpace(pl, second) =>
      if pl.pos + pl.len <= s.deq + s.cap then s.(prod := Reserve(pl))
      else s.(prod := if second then StealDeq(pl) else TestSpace(pl, true))
    case Reserve(pl) =>  // a plain store: there is one producer
      s.(prod := Store(pl, 0), enq := pl.pos + pl.len, resv := s.resv + [Reservation(s.cap, 0, pl, 0)])
    case Store(pl, n) => if |s.resv| > 0 then StoreStep(s, pl, n) else s
    case _ => s
  }

  // ---------------------------------------------------------------- get

  /** Steps that only read. A torn length may point past the buffer; what is read there is
      unspecified. */
  function Glance(s: State, timeUp: bool): Consumer
    requires s.cap > 0
  {
    match s.con
    case ReadDeq => ReadTail(s.deq)
    case ReadTail(d) => if d < s.enq then Fresh(d) else if s.closed || timeUp then Done(None) else ReadDeq
    case Fresh(d) => if s.deq == d then ReadMark(d) else ReadDeq
    case ReadMark(d) =>
      var m := Load(s.mem, Off(s.cap, d)).raw;
      if m == 8 * d + 1 then ReadLen(d) else if m > 8 * d + 1 then ReadDeq
      else if timeUp then Done(None) else Fresh(d)
    case ReadLen(d) =>
      var bytes := TotalLen(Load(s.mem, Off(s.cap, d) + 4).raw);
      if bytes < 8 * HEADER || bytes > 8 * s.cap then ReadDeq else ReadFlags(d, bytes / 8)
    case ReadFlags(d, total) =>
      if PadFlag(Load(s.mem, Off(s.cap, d) + 5).raw) then Skip(d, total) else Copy(d, total, [])
    case Copy(d, total, words) =>
      if |words| < total then Copy(d, total, words + [Load(s.mem, Off(s.cap, d) + |words|).raw])
      else Check(d, total, words)
    case Check(d, total, words) =>
      if Load(s.mem, Off(s.cap, d)).raw != 8 * d + 1 then ReadDeq else Advance(d, total, words)
    case st => st
  }

  function Consumed(s: State, timeUp: bool): State
    requires s.cap > 0
  {
    match s.con
    case Advance(d, total, words) =>
      if s.deq == d then
        s.(con := Done(Some(d)), deq := d + total, fates := s.fates + [Taken],
           delivered := s.delivered + [Delivery(d, words)])
      else s.(con := ReadDeq)
    case Skip(d, total) =>
      if s.deq == d then s.(con := ReadDeq, deq := d + total, fates := s.fates + [Skipped])
      else s.(con := ReadDeq)
    case _ => s.(con := Glance(s, timeUp))
  }

  // ---------------------------------------------------------------- runs

  ghost predicate Next(s: State, a: Action, t: State)
    requires s.cap > 0
  {
    match a
    case Put(m) => s.prod.Idle? && MsgOk(s.cap, m) && t == s.(prod := TestClosed(m))
    case Produce => t == Produced(s)
    case Get => (s.con.Outside? || s.con.Done?) && t == s.(con := ReadDeq)
    case Consume(timeUp) => t == Consumed(s, timeUp)
    case Close => t == s.(closed := true)
  }

  /** The hypothesis: a marker test on the record at deq never finds the expected value in
      a word that is not a commit word. */
  predicate NoAlias(s: State, a: Action)
    requires s.cap > 0
  {
    a.Consume? && s.con.ReadMark? && s.con.d == s.deq ==>
      var w := Load(s.mem, Off(s.cap, s.deq));
      w.raw == 8 * s.deq + 1 ==> w.Commit?
  }

  ghost predicate Run(tr: seq<State>, acts: seq<Action>) {
    && |tr| == |acts| + 1 && Init(tr[0])
    && forall t | 0 <= t < |acts| :: tr[t].cap > 0 && Next(tr[t], acts[t], tr[t + 1])
  }

  ghost predicate Unaliased(tr: seq<State>, acts: seq<Action>) {
    |tr| == |acts| + 1 && forall t | 0 <= t < |acts| :: tr[t].cap > 0 && NoAlias(tr[t], acts[t])
  }
}
