/** What every step of the MPMC ring keeps. */
module MpmcInvariant {
  import opened Options
  import opened RingLayout
  import opened MpmcRing

  // ---------------------------------------------------------------- the invariant

  ghost predicate Cursors(cap: nat, enq: nat, deq: nat, mem: seq<Word>, resv: seq<Resv>, k: nat) {
    && CapOk(cap) && |mem| == cap
    && Tiled(cap, resv, enq)
    && k <= |resv| && deq == EndOf(resv, k)
    && enq <= deq + cap
  }

  /** A live-looking marker in memory names the record it belongs to: only the published
      and the claimed records of the window have one. */
  ghost predicate MarkerOk(resv: seq<Resv>, k: nat, x: nat, w: Word) {
    w.Commit? && w.raw != 0 ==>
      && w.rec < |resv| && resv[w.rec].off == x
      && ((w.raw == 8 * resv[w.rec].pos + 1 && k <= w.rec && resv[w.rec].phase == Published)
          || (w.raw == 8 * resv[w.rec].pos + 2 && w.rec <= k && resv[w.rec].phase.Leased?))
  }

  ghost predicate Markers(mem: seq<Word>, resv: seq<Resv>, k: nat) {
    forall x {:trigger MarkerOk(resv, k, x, mem[x])} | 0 <= x < |mem| :: MarkerOk(resv, k, x, mem[x])
  }

  /** Words 1 .. n-1 of the record are in memory. */
  ghost predicate Filled(mem: seq<Word>, r: Resv, n: nat) {
    && n <= |r.words| + 1 && |r.words| < r.len && r.off + r.len <= |mem|
    && forall x | r.off < x < r.off + n :: mem[x] == Plain(r.words[x - r.off - 1])
  }

  ghost predicate Stored(mem: seq<Word>, r: Resv, i: nat) {
    r.off < |mem| &&
    match r.phase
    case Writing(n) => Filled(mem, r, n) && (n > 0 ==> mem[r.off].Commit? && mem[r.off].raw == 0)
    case Published => Filled(mem, r, |r.words| + 1) && mem[r.off] == Commit(8 * r.pos + 1, i)
    case Leased(_) => Filled(mem, r, |r.words| + 1) && mem[r.off] == Commit(8 * r.pos + 2, i)
  }

  ghost predicate Records(mem: seq<Word>, resv: seq<Resv>, k: nat) {
    && (forall i | 0 <= i < |resv| :: (i < k ==> resv[i].phase.Leased?) && (i > k ==> !resv[i].phase.Leased?))
    && (forall i {:trigger Stored(mem, resv[i], i)} | k <= i < |resv| :: Stored(mem, resv[i], i))
  }

  ghost predicate PlanOk(cap: nat, enq: nat, pl: Plan)
    requires cap > 0
  {
    pl.pos <= enq && PlanShape(cap, pl)
  }

  ghost predicate ProdOk(cap: nat, enq: nat, deq: nat, resv: seq<Resv>, p: nat, st: Producer)
    requires cap > 0
  {
    match st
    case Idle => true
    case TestClosed(m) => MsgOk(cap, m)
    case ReadEnq(m, total) => MsgOk(cap, m) && RecordLen(m) <= total <= cap
    case TestSpace(pl, _) => PlanOk(cap, enq, pl)
    case Reserve(pl) => PlanOk(cap, enq, pl) && pl.pos + pl.len <= deq + cap
    case Store(pl, i, n) =>
      && PlanOk(cap, enq, pl) && i < |resv| && n <= |Image(Content(pl), pl.len)| + 1
      && resv[i] == Reservation(cap, p, pl, n)
    case Kick(i) => Unkicked(resv, p, i)
    case KickLocked(i) => Unkicked(resv, p, i)
  }

  ghost predicate Unkicked(resv: seq<Resv>, p: nat, i: nat) {
    && i < |resv| && resv[i].owner == p && !resv[i].kicked
    && resv[i].msg.Some? && !resv[i].phase.Writing?
  }

  predicate Owes(st: Producer, i: nat) {
    match st
    case Store(_, r, _) => r == i
    case Kick(r) => r == i
    case KickLocked(r) => r == i
    case _ => false
  }

  /** A message whose put has not yet passed its wakeup is in its producer's hands. */
  ghost predicate Owed(resv: seq<Resv>, prods: map<nat, Producer>) {
    forall i | 0 <= i < |resv| && resv[i].msg.Some? && !resv[i].kicked ::
      resv[i].owner in prods && Owes(prods[resv[i].owner], i)
  }

  /** Consumer c holds the read lease on position d. */
  ghost predicate Holds(deq: nat, resv: seq<Resv>, k: nat, c: nat, d: nat) {
    k < |resv| && resv[k].pos == d == deq && resv[k].phase == Leased(c)
  }

  ghost predicate NoneKicked(resv: seq<Resv>, e: nat) {
    forall i | 0 <= i < |resv| && e <= resv[i].pos && resv[i].msg.Some? :: !resv[i].kicked
  }

  ghost predicate ConOk(enq: nat, deq: nat, resv: seq<Resv>, k: nat, c: nat, st: Consumer) {
    match st
    case ReadTail(d) => d <= deq
    case Fresh(d) => d <= deq && d < enq
    case ReadMark(d) => d <= deq && d < enq
    case Gate(d) => d <= deq && d < enq
    case Claim(d) => d <= deq && d < enq
    case ReadLen(d) => Holds(deq, resv, k, c, d)
    case ReadFlags(d, total) => Holds(deq, resv, k, c, d) && total == resv[k].len
    case Copy(d, total, words) =>
      Holds(deq, resv, k, c, d) && total == resv[k].len && resv[k].msg.Some? && Staged(words, resv[k])
    case Advance(d, total, words) =>
      && Holds(deq, resv, k, c, d) && total == resv[k].len == |words| && resv[k].msg.Some?
      && Staged(words, resv[k])
    case Skip(d, total) => Holds(deq, resv, k, c, d) && total == resv[k].len && resv[k].msg.None?
    case ParkEnq(d) => d <= deq
    case ParkWait(e) => e <= deq && NoneKicked(resv, e)
    case Parked(e) => e <= deq && NoneKicked(resv, e)
    case _ => true
  }

  predicate HasMutex(st: Consumer) {
    st.ParkCount? || st.ParkDeq? || st.ParkEnq? || st.ParkWait? || st.Unpark? || st.ParkUnlock?
  }

  predicate Counted(st: Consumer) {
    st.ParkDeq? || st.ParkEnq? || st.ParkWait? || st.Parked? || st.Woken? || st.Unpark?
  }

  ghost function Waiters(cons: map<nat, Consumer>): set<nat> { set c | c in cons && Counted(cons[c]) }

  ghost predicate Parking(cons: map<nat, Consumer>, mutex: Option<nat>, waiting: nat) {
    && (forall c | c in cons :: HasMutex(cons[c]) <==> mutex == Some(c))
    && waiting == |Waiters(cons)|
  }

  ghost predicate ProdsOk(cap: nat, enq: nat, deq: nat, resv: seq<Resv>, prods: map<nat, Producer>)
    requires cap > 0
  {
    forall p {:trigger ProdOk(cap, enq, deq, resv, p, prods[p])} | p in prods ::
      ProdOk(cap, enq, deq, resv, p, prods[p])
  }

  ghost predicate ConsOk(enq: nat, deq: nat, resv: seq<Resv>, k: nat, cons: map<nat, Consumer>) {
    forall c {:trigger ConOk(enq, deq, resv, k, c, cons[c])} | c in cons ::
      ConOk(enq, deq, resv, k, c, cons[c])
  }

  /** The delivery is the record: its position, its reader, and its words. */
  ghost predicate Faithful(v: Delivery, r: Resv) {
    v.pos == r.pos && |v.words| == r.len && Staged(v.words, r) && r.phase == Leased(v.reader)
  }

  /** The deliveries are, in order, exactly the messages among the first k reservations. */
  ghost predicate Handed(delivered: seq<Delivery>, resv: seq<Resv>, k: nat)
    requires k <= |resv|
  {
    if k == 0 then delivered == []
    else if resv[k - 1].msg.None? then Handed(delivered, resv, k - 1)
    else
      && |delivered| > 0 && Faithful(delivered[|delivered| - 1], resv[k - 1])
      && Handed(delivered[..|delivered| - 1], resv, k - 1)
  }

  ghost predicate Inv(s: State) {
    && Cursors(s.cap, s.enq, s.deq, s.mem, s.resv, s.k)
    && Markers(s.mem, s.resv, s.k) && Records(s.mem, s.resv, s.k)
    && ProdsOk(s.cap, s.enq, s.deq, s.resv, s.prods) && ConsOk(s.enq, s.deq, s.resv, s.k, s.cons)
    && Owed(s.resv, s.prods) && Parking(s.cons, s.mutex, s.waiting)
    && Handed(s.delivered, s.resv, s.k)
  }

  // ---------------------------------------------------------------- steps of one thread only

  lemma MoveProducer(s: State, p: nat, st: Producer)
    requires Inv(s) && p in s.prods && ProdOk(s.cap, s.enq, s.deq, s.resv, p, st)
    requires forall i :: Owes(s.prods[p], i) ==> Owes(st, i)
    ensures Inv(AtP(s, p, st))
  {
  }

  lemma MoveConsumer(s: State, c: nat, st: Consumer)
    requires Inv(s) && c in s.cons && ConOk(s.enq, s.deq, s.resv, s.k, c, st)
    requires HasMutex(s.cons[c]) == HasMutex(st) && Counted(s.cons[c]) == Counted(st)
    ensures Inv(AtC(s, c, st))
  {
    assert Waiters(s.cons[c := st]) == Waiters(s.cons);
  }

  // ---------------------------------------------------------------- put

  lemma DropKeeps(s: State, p: nat)
    requires Inv(s) && p in s.prods && forall i :: !Owes(s.prods[p], i)
    ensures Inv(Drop(s, p))
  {
    MoveProducer(s, p, Idle);
  }

  lemma {:induction false} HandedStable(delivered: seq<Delivery>, resv: seq<Resv>, resv': seq<Resv>, k: nat)
    requires k <= |resv| && k <= |resv'| && Handed(delivered, resv, k)
    requires forall i | 0 <= i < k :: resv'[i] == resv[i].(kicked := resv'[i].kicked)
    ensures Handed(delivered, resv', k)
  {
    if k > 0 {
      if resv[k - 1].msg.None? {
        HandedStable(delivered, resv, resv', k - 1);
      } else {
        HandedStable(delivered[..|delivered| - 1], resv, resv', k - 1);
      }
    }
  }

  /** What a new reservation at the end of the log changes for everybody else: nothing. */
  lemma ExtendLog(s: State, r: Resv)
    requires Inv(s) && r.phase == Writing(0) && |r.words| < r.len && r.off + r.len <= s.cap
    ensures Markers(s.mem, s.resv + [r], s.k)
    ensures Records(s.mem, s.resv + [r], s.k)
    ensures s.k < |s.resv| ==> (s.resv + [r])[s.k] == s.resv[s.k]
  {
    var resv' := s.resv + [r];
    forall x | 0 <= x < |s.mem| ensures MarkerOk(resv', s.k, x, s.mem[x]) {
      assert MarkerOk(s.resv, s.k, x, s.mem[x]);
    }
    assert Filled(s.mem, r, 0);
    forall i | s.k <= i < |resv'| ensures Stored(s.mem, resv'[i], i) {
      if i < |s.resv| { assert Stored(s.mem, s.resv[i], i); }
    }
  }

  lemma ExtendThreads(s: State, p: nat, r: Resv, st: Producer)
    requires Inv(s) && p in s.prods && s.prods[p].Reserve?
    requires r.owner == p && r.pos == s.enq && (r.msg.Some? ==> Owes(st, |s.resv|))
    requires ProdOk(s.cap, s.enq + r.len, s.deq, s.resv + [r], p, st)
    ensures ProdsOk(s.cap, s.enq + r.len, s.deq, s.resv + [r], s.prods[p := st])
    ensures Owed(s.resv + [r], s.prods[p := st])
  {
    var resv', prods' := s.resv + [r], s.prods[p := st];
    forall q | q in prods' && q != p ensures ProdOk(s.cap, s.enq + r.len, s.deq, resv', q, prods'[q]) {
      assert ProdOk(s.cap, s.enq, s.deq, s.resv, q, s.prods[q]);
    }
  }

  /** A consumer parks only after seeing deq >= enq, so a later record starts at or after
      the tail it saw and its producer still owes the wakeup. */
  lemma ExtendConsumers(s: State, r: Resv)
    requires Inv(s) && r.pos == s.enq && !r.kicked
    ensures ConsOk(s.enq + r.len, s.deq, s.resv + [r], s.k, s.cons)
  {
    forall c | c in s.cons ensures ConOk(s.enq + r.len, s.deq, s.resv + [r], s.k, c, s.cons[c]) {
      assert ConOk(s.enq, s.deq, s.resv, s.k, c, s.cons[c]);
    }
  }

  lemma ExtendCursors(s: State, r: Resv)
    requires Inv(s) && r.pos == s.enq && ResvOk(s.cap, r) && r.pos + r.len <= s.deq + s.cap
    ensures Cursors(s.cap, s.enq + r.len, s.deq, s.mem, s.resv + [r], s.k)
    ensures Handed(s.delivered, s.resv + [r], s.k)
  {
    TiledExtend(s.cap, s.resv, s.enq, r);
    HandedStable(s.delivered, s.resv, s.resv + [r], s.k);
  }

  lemma ReservedThread(s: State, p: nat, pl: Plan, r: Resv)
    requires Inv(s) && PlanOk(s.cap, s.enq, pl) && pl.pos == s.enq
    requires r == Reservation(s.cap, p, pl, 0)
    ensures ProdOk(s.cap, s.enq + r.len, s.deq, s.resv + [r], p, Store(pl, |s.resv|, 0))
    ensures ResvOk(s.cap, r) && |r.words| < r.len
  {
    assert (s.resv + [r])[|s.resv|] == r;
  }

  lemma ReservedKeeps(s: State, p: nat, pl: Plan, r: Resv)
    requires Inv(s) && p in s.prods && s.prods[p] == Reserve(pl) && s.enq == pl.pos
    requires r == Reservation(s.cap, p, pl, 0)
    ensures Inv(s.(enq := s.enq + r.len, resv := s.resv + [r], prods := s.prods[p := Store(pl, |s.resv|, 0)]))
  {
    assert ProdOk(s.cap, s.enq, s.deq, s.resv, p, s.prods[p]);
    var st := Store(pl, |s.resv|, 0);
    var t := s.(enq := s.enq + r.len, resv := s.resv + [r], prods := s.prods[p := st]);
    ReservedThread(s, p, pl, r);
    assert Cursors(t.cap, t.enq, t.deq, t.mem, t.resv, t.k) && Handed(t.delivered, t.resv, t.k) by {
      ExtendCursors(s, r);
    }
    assert Markers(t.mem, t.resv, t.k) && Records(t.mem, t.resv, t.k) by { ExtendLog(s, r); }
    assert ProdsOk(t.cap, t.enq, t.deq, t.resv, t.prods) && Owed(t.resv, t.prods) by {
      ExtendThreads(s, p, r, st);
    }
    assert ConsOk(t.enq, t.deq, t.resv, t.k, t.cons) by { ExtendConsumers(s, r); }
    assert Parking(t.cons, t.mutex, t.waiting);
  }

  lemma ReserveKeeps(s: State, p: nat)
    requires Inv(s) && p in s.prods && s.prods[p].Reserve?
    ensures Inv(Produced(s, p))
  {
    var pl := s.prods[p].pl;
    assert ProdOk(s.cap, s.enq, s.deq, s.resv, p, s.prods[p]);
    if s.enq != pl.pos {
      MoveProducer(s, p, ReadEnq(pl.m, pl.total));
    } else {
      ReservedKeeps(s, p, pl, Reservation(s.cap, p, pl, 0));
    }
  }

  /** A producer writes word x of its own unpublished record i and moves its phase on. */
  ghost predicate StoresInto(s: State, p: nat, i: nat, x: nat, w: Word, ph: Phase) {
    && s.k <= i < |s.resv| && s.resv[i].phase.Writing? && s.resv[i].owner == p && !s.resv[i].kicked
    && s.resv[i].off <= x < s.resv[i].off + s.resv[i].len && x < |s.mem| && !ph.Leased?
    && MarkerOk(SetPhase(s.resv, i, ph), s.k, x, w)
    && Stored(s.mem[x := w], s.resv[i].(phase := ph), i)
  }

  lemma CursorsRelabel(s: State, mem: seq<Word>, resv': seq<Resv>)
    requires Inv(s) && Relabels(s.resv, resv') && |mem| == |s.mem|
    ensures Cursors(s.cap, s.enq, s.deq, mem, resv', s.k)
  {
    TiledRelabel(s.cap, s.resv, resv', s.enq);
    EndsRelabel(s.resv, resv', s.k);
  }

  lemma StoreMarkers(s: State, p: nat, i: nat, x: nat, w: Word, ph: Phase)
    requires Inv(s) && StoresInto(s, p, i, x, w, ph)
    ensures Markers(s.mem[x := w], SetPhase(s.resv, i, ph), s.k)
  {
    var mem', resv' := s.mem[x := w], SetPhase(s.resv, i, ph);
    forall y | 0 <= y < |mem'| ensures MarkerOk(resv', s.k, y, mem'[y]) {
      assert MarkerOk(s.resv, s.k, y, s.mem[y]);
    }
  }

  lemma StoreRecords(s: State, p: nat, i: nat, x: nat, w: Word, ph: Phase)
    requires Inv(s) && StoresInto(s, p, i, x, w, ph)
    ensures Records(s.mem[x := w], SetPhase(s.resv, i, ph), s.k)
  {
    var mem', resv' := s.mem[x := w], SetPhase(s.resv, i, ph);
    assert s.resv[s.k].pos == EndOf(s.resv, s.k);
    forall j | s.k <= j < |resv'| ensures Stored(mem', resv'[j], j) {
      assert Stored(s.mem, s.resv[j], j);
      if j != i {
        LiveApart(s.cap, s.resv, s.enq, s.k, i, j);
      }
    }
  }

  lemma StoreThreads(s: State, p: nat, i: nat, x: nat, w: Word, ph: Phase, st: Producer)
    requires Inv(s) && StoresInto(s, p, i, x, w, ph) && p in s.prods
    requires ProdOk(s.cap, s.enq, s.deq, SetPhase(s.resv, i, ph), p, st)
    requires forall j :: Owes(s.prods[p], j) && s.resv[i].msg.Some? ==> Owes(st, j)
    requires forall j :: Owes(s.prods[p], j) <==> i == j
    ensures ProdsOk(s.cap, s.enq, s.deq, SetPhase(s.resv, i, ph), s.prods[p := st])
    ensures Owed(SetPhase(s.resv, i, ph), s.prods[p := st])
  {
    var resv', prods' := SetPhase(s.resv, i, ph), s.prods[p := st];
    forall q | q in prods' && q != p ensures ProdOk(s.cap, s.enq, s.deq, resv', q, prods'[q]) {
      assert ProdOk(s.cap, s.enq, s.deq, s.resv, q, s.prods[q]);
    }
  }

  lemma StoreConsumers(s: State, p: nat, i: nat, x: nat, w: Word, ph: Phase)
    requires Inv(s) && StoresInto(s, p, i, x, w, ph)
    ensures ConsOk(s.enq, s.deq, SetPhase(s.resv, i, ph), s.k, s.cons)
    ensures Handed(s.delivered, SetPhase(s.resv, i, ph), s.k)
  {
    var resv' := SetPhase(s.resv, i, ph);
    forall c | c in s.cons ensures ConOk(s.enq, s.deq, resv', s.k, c, s.cons[c]) {
      assert ConOk(s.enq, s.deq, s.resv, s.k, c, s.cons[c]);
    }
    HandedStable(s.delivered, s.resv, resv', s.k);
  }

  lemma StoreKeeps(s: State, p: nat, i: nat, x: nat, w: Word, ph: Phase, st: Producer)
    requires Inv(s) && StoresInto(s, p, i, x, w, ph) && p in s.prods
    requires ProdOk(s.cap, s.enq, s.deq, SetPhase(s.resv, i, ph), p, st)
    requires forall j :: Owes(s.prods[p], j) && s.resv[i].msg.Some? ==> Owes(st, j)
    requires forall j :: Owes(s.prods[p], j) <==> i == j
    ensures Inv(AtP(s, p, st).(mem := Poke(s.mem, x, w), resv := SetPhase(s.resv, i, ph)))
  {
    var t := s.(mem := s.mem[x := w], resv := SetPhase(s.resv, i, ph), prods := s.prods[p := st]);
    assert Cursors(t.cap, t.enq, t.deq, t.mem, t.resv, t.k) by { CursorsRelabel(s, t.mem, t.resv); }
    assert Markers(t.mem, t.resv, t.k) by { StoreMarkers(s, p, i, x, w, ph); }
    assert Records(t.mem, t.resv, t.k) by { StoreRecords(s, p, i, x, w, ph); }
    assert ProdsOk(t.cap, t.enq, t.deq, t.resv, t.prods) && Owed(t.resv, t.prods) by {
      StoreThreads(s, p, i, x, w, ph, st);
    }
    assert ConsOk(t.enq, t.deq, t.resv, t.k, t.cons) && Handed(t.delivered, t.resv, t.k) by {
      StoreConsumers(s, p, i, x, w, ph);
    }
    assert Parking(t.cons, t.mutex, t.waiting);
  }

  lemma StoreEntry(s: State, p: nat, pl: Plan, i: nat, n: nat)
    requires Inv(s) && p in s.prods && s.prods[p] == Store(pl, i, n)
    ensures s.k <= i < |s.resv| && s.resv[i].phase == Writing(n) && n <= |s.resv[i].words| + 1
    ensures s.resv[i] == Reservation(s.cap, p, pl, n)
    ensures Filled(s.mem, s.resv[i], n) && PlanOk(s.cap, s.enq, pl)
    ensures n > 0 ==> s.mem[s.resv[i].off].Commit? && s.mem[s.resv[i].off].raw == 0
  {
    assert ProdOk(s.cap, s.enq, s.deq, s.resv, p, s.prods[p]);
    assert Stored(s.mem, s.resv[i], i);
  }

  lemma InvalidateKeeps(s: State, p: nat, pl: Plan, i: nat)
    requires Inv(s) && p in s.prods && s.prods[p] == Store(pl, i, 0)
    ensures Inv(Produced(s, p))
  {
    StoreEntry(s, p, pl, i, 0);
    StoreKeeps(s, p, i, s.resv[i].off, Commit(0, i), Writing(1), Store(pl, i, 1));
  }

  lemma FilledNext(mem: seq<Word>, r: Resv, n: nat, ph: Phase)
    requires Filled(mem, r, n) && 0 < n <= |r.words|
    ensures Filled(mem[r.off + n := Plain(r.words[n - 1])], r.(phase := ph), n + 1)
  {
  }

  lemma FilledMark(mem: seq<Word>, r: Resv, n: nat, w: Word, ph: Phase)
    requires Filled(mem, r, n)
    ensures Filled(mem[r.off := w], r.(phase := ph), n)
  {
  }

  lemma FillStores(s: State, p: nat, i: nat, n: nat)
    requires s.k <= i < |s.resv| && s.resv[i].owner == p && !s.resv[i].kicked
    requires s.resv[i].phase == Writing(n) && Filled(s.mem, s.resv[i], n) && 0 < n <= |s.resv[i].words|
    requires s.mem[s.resv[i].off].Commit? && s.mem[s.resv[i].off].raw == 0
    ensures StoresInto(s, p, i, s.resv[i].off + n, Plain(s.resv[i].words[n - 1]), Writing(n + 1))
  {
    FilledNext(s.mem, s.resv[i], n, Writing(n + 1));
  }

  lemma FillThread(s: State, p: nat, pl: Plan, i: nat, n: nat)
    requires Inv(s) && p in s.prods && s.prods[p] == Store(pl, i, n) && n <= |Image(Content(pl), pl.len)|
    ensures ProdOk(s.cap, s.enq, s.deq, SetPhase(s.resv, i, Writing(n + 1)), p, Store(pl, i, n + 1))
  {
    assert ProdOk(s.cap, s.enq, s.deq, s.resv, p, s.prods[p]);
  }

  lemma FillKeeps(s: State, p: nat, pl: Plan, i: nat, n: nat)
    requires Inv(s) && p in s.prods && s.prods[p] == Store(pl, i, n) && 0 < n <= |Image(Content(pl), pl.len)|
    ensures Inv(Produced(s, p))
  {
    StoreEntry(s, p, pl, i, n);
    var image := s.resv[i].words;
    assert image == Image(Content(pl), pl.len);
    var x, w, st := s.resv[i].off + n, Plain(image[n - 1]), Store(pl, i, n + 1);
    assert StoresInto(s, p, i, x, w, Writing(n + 1)) by { FillStores(s, p, i, n); }
    assert ProdOk(s.cap, s.enq, s.deq, SetPhase(s.resv, i, Writing(n + 1)), p, st) by { FillThread(s, p, pl, i, n); }
    assert Inv(AtP(s, p, st).(mem := Poke(s.mem, x, w), resv := SetPhase(s.resv, i, Writing(n + 1)))) by {
      StoreKeeps(s, p, i, x, w, Writing(n + 1), st);
    }
  }

  lemma PublishKeeps(s: State, p: nat, pl: Plan, i: nat, n: nat)
    requires Inv(s) && p in s.prods && s.prods[p] == Store(pl, i, n) && n > |Image(Content(pl), pl.len)|
    ensures Inv(Produced(s, p))
  {
    StoreEntry(s, p, pl, i, n);
    var r := s.resv[i];
    var w, st := Commit(8 * pl.pos + 1, i), if pl.pad then ReadEnq(pl.m, pl.total) else Kick(i);
    assert StoresInto(s, p, i, r.off, w, Published) by { FilledMark(s.mem, r, n, w, Published); }
    assert ProdOk(s.cap, s.enq, s.deq, SetPhase(s.resv, i, Published), p, st);
    StoreKeeps(s, p, i, r.off, w, Published, st);
  }

  // ---------------------------------------------------------------- the wakeup after a put

  lemma KickedMarkers(s: State, i: nat)
    requires Inv(s)
    ensures Markers(s.mem, SetKicked(s.resv, i), s.k)
  {
    forall x | 0 <= x < |s.mem| ensures MarkerOk(SetKicked(s.resv, i), s.k, x, s.mem[x]) {
      assert MarkerOk(s.resv, s.k, x, s.mem[x]);
    }
  }

  lemma KickedLog(s: State, i: nat)
    requires Inv(s)
    ensures Records(s.mem, SetKicked(s.resv, i), s.k) && Handed(s.delivered, SetKicked(s.resv, i), s.k)
  {
    var resv' := SetKicked(s.resv, i);
    forall j | s.k <= j < |resv'| ensures Stored(s.mem, resv'[j], j) {
      assert Stored(s.mem, s.resv[j], j);
    }
    HandedStable(s.delivered, s.resv, resv', s.k);
  }

  lemma KickedThreads(s: State, p: nat, i: nat)
    requires Inv(s) && p in s.prods && (s.prods[p] == Kick(i) || s.prods[p] == KickLocked(i))
    ensures ProdsOk(s.cap, s.enq, s.deq, SetKicked(s.resv, i), s.prods[p := Idle])
    ensures Owed(SetKicked(s.resv, i), s.prods[p := Idle])
  {
    assert ProdOk(s.cap, s.enq, s.deq, s.resv, p, s.prods[p]);
    var resv', prods' := SetKicked(s.resv, i), s.prods[p := Idle];
    forall q | q in prods' && q != p ensures ProdOk(s.cap, s.enq, s.deq, resv', q, prods'[q]) {
      assert ProdOk(s.cap, s.enq, s.deq, s.resv, q, s.prods[q]);
    }
  }

  /** Once nobody is parked or about to park, the wakeup may be ticked off. */
  lemma KickedConsumers(s: State, i: nat, cons: map<nat, Consumer>)
    requires Inv(s) && i < |s.resv| && ConsOk(s.enq, s.deq, s.resv, s.k, cons)
    requires forall c | c in cons :: !cons[c].Parked? && !cons[c].ParkWait?
    ensures ConsOk(s.enq, s.deq, SetKicked(s.resv, i), s.k, cons)
  {
    forall c | c in cons ensures ConOk(s.enq, s.deq, SetKicked(s.resv, i), s.k, c, cons[c]) {
      assert ConOk(s.enq, s.deq, s.resv, s.k, c, cons[c]);
    }
  }

  lemma KickedKeeps(s: State, p: nat, i: nat, cons: map<nat, Consumer>)
    requires Inv(s) && p in s.prods && (s.prods[p] == Kick(i) || s.prods[p] == KickLocked(i))
    requires ConsOk(s.enq, s.deq, s.resv, s.k, cons) && Parking(cons, s.mutex, s.waiting)
    requires forall c | c in cons :: !cons[c].Parked? && !cons[c].ParkWait?
    ensures Inv(AtP(s, p, Idle).(resv := SetKicked(s.resv, i), cons := cons))
  {
    var t := AtP(s, p, Idle).(resv := SetKicked(s.resv, i), cons := cons);
    assert ProdOk(s.cap, s.enq, s.deq, s.resv, p, s.prods[p]);
    assert Cursors(t.cap, t.enq, t.deq, t.mem, t.resv, t.k) by { CursorsRelabel(s, t.mem, t.resv); }
    assert Markers(t.mem, t.resv, t.k) by { KickedMarkers(s, i); }
    assert Records(t.mem, t.resv, t.k) && Handed(t.delivered, t.resv, t.k) by { KickedLog(s, i); }
    assert ProdsOk(t.cap, t.enq, t.deq, t.resv, t.prods) && Owed(t.resv, t.prods) by { KickedThreads(s, p, i); }
    assert ConsOk(t.enq, t.deq, t.resv, t.k, t.cons) by { KickedConsumers(s, i, cons); }
  }

  lemma KickKeeps(s: State, p: nat, i: nat)
    requires Inv(s) && p in s.prods && s.prods[p] == Kick(i)
    ensures Inv(Produced(s, p))
  {
    assert ProdOk(s.cap, s.enq, s.deq, s.resv, p, s.prods[p]);
    if s.waiting == 0 {
      forall c | c in s.cons ensures !s.cons[c].Parked? && !s.cons[c].ParkWait? {
        assert Counted(s.cons[c]) ==> c in Waiters(s.cons);
      }
      KickedKeeps(s, p, i, s.cons);
    } else {
      MoveProducer(s, p, KickLocked(i));
    }
  }

  lemma WakeKeeps(s: State)
    requires Inv(s) && s.mutex.None?
    ensures ConsOk(s.enq, s.deq, s.resv, s.k, Wake(s.cons)) && Parking(Wake(s.cons), s.mutex, s.waiting)
    ensures forall c | c in Wake(s.cons) :: !Wake(s.cons)[c].Parked? && !Wake(s.cons)[c].ParkWait?
  {
    var cons' := Wake(s.cons);
    forall c | c in cons'
      ensures ConOk(s.enq, s.deq, s.resv, s.k, c, cons'[c]) && !cons'[c].Parked? && !cons'[c].ParkWait?
    {
      assert ConOk(s.enq, s.deq, s.resv, s.k, c, s.cons[c]);
      assert HasMutex(s.cons[c]) <==> s.mutex == Some(c);
    }
    assert Waiters(cons') == Waiters(s.cons);
  }

  lemma KickLockedKeeps(s: State, p: nat, i: nat)
    requires Inv(s) && p in s.prods && s.prods[p] == KickLocked(i)
    ensures Inv(Produced(s, p))
  {
    assert ProdOk(s.cap, s.enq, s.deq, s.resv, p, s.prods[p]);
    if s.mutex.None? {
      WakeKeeps(s);
      KickedKeeps(s, p, i, Wake(s.cons));
    }
  }

  lemma ProducerKeeps(s: State, p: nat)
    requires Inv(s) && p in s.prods
    ensures Inv(Produced(s, p))
  {
    assert ProdOk(s.cap, s.enq, s.deq, s.resv, p, s.prods[p]);
    match s.prods[p]
    case Idle =>
    case TestClosed(m) =>
      if s.closed { DropKeeps(s, p); } else { MoveProducer(s, p, ReadEnq(m, RecordLen(m))); }
    case ReadEnq(m, total) =>
      StartsFit(s.cap, s.resv, s.enq);
      PlanFits(s.cap, m, total, s.enq);
      MoveProducer(s, p, TestSpace(PlanAt(s.cap, m, total, s.enq), false));
    case TestSpace(pl, second) =>
      if pl.pos + pl.len <= s.deq + s.cap { MoveProducer(s, p, Reserve(pl)); }
      else if second { DropKeeps(s, p); }
      else { MoveProducer(s, p, TestSpace(pl, true)); }
    case Reserve(pl) => ReserveKeeps(s, p);
    case Store(pl, i, n) =>
      if n == 0 { InvalidateKeeps(s, p, pl, i); }
      else if n <= |Image(Content(pl), pl.len)| { FillKeeps(s, p, pl, i, n); }
      else { PublishKeeps(s, p, pl, i, n); }
    case Kick(i) => KickKeeps(s, p, i);
    case KickLocked(i) => KickLockedKeeps(s, p, i);
  }

  // ---------------------------------------------------------------- get

  /** With no alias, a lease CAS succeeds only on the published record at deq. */
  lemma ClaimFindsFront(s: State, c: nat, d: nat)
    requires Inv(s) && c in s.cons && s.cons[c] == Claim(d)
    requires Load(s.mem, Off(s.cap, d)).raw == 8 * d + 1 && Load(s.mem, Off(s.cap, d)).Commit?
    ensures s.k < |s.resv| && s.resv[s.k].phase == Published && s.resv[s.k].pos == d == s.deq
    ensures s.resv[s.k].off == Off(s.cap, d)
  {
    assert ConOk(s.enq, s.deq, s.resv, s.k, c, s.cons[c]);
    var x := Off(s.cap, d);
    var i := s.mem[x].rec;
    assert MarkerOk(s.resv, s.k, x, s.mem[x]);
    ResvShape(s.cap, s.resv, s.enq, i);
    if s.k < i { TilesAscend(s.cap, s.resv, s.enq, s.k, i); }
    ResvShape(s.cap, s.resv, s.enq, s.k);
  }

  lemma LeaseMarkers(s: State, c: nat)
    requires Inv(s) && s.k < |s.resv| && s.resv[s.k].phase == Published
    ensures Markers(Poke(s.mem, s.resv[s.k].off, Commit(8 * s.resv[s.k].pos + 2, s.k)),
                    SetPhase(s.resv, s.k, Leased(c)), s.k)
  {
    var r := s.resv[s.k];
    var mem' := Poke(s.mem, r.off, Commit(8 * r.pos + 2, s.k));
    assert Stored(s.mem, r, s.k);
    forall y | 0 <= y < |mem'| ensures MarkerOk(SetPhase(s.resv, s.k, Leased(c)), s.k, y, mem'[y]) {
      assert MarkerOk(s.resv, s.k, y, s.mem[y]);
    }
  }

  lemma LeaseRecords(s: State, c: nat)
    requires Inv(s) && s.k < |s.resv| && s.resv[s.k].phase == Published
    ensures Records(Poke(s.mem, s.resv[s.k].off, Commit(8 * s.resv[s.k].pos + 2, s.k)),
                    SetPhase(s.resv, s.k, Leased(c)), s.k)
  {
    var r := s.resv[s.k];
    var w := Commit(8 * r.pos + 2, s.k);
    var mem', resv' := Poke(s.mem, r.off, w), SetPhase(s.resv, s.k, Leased(c));
    ResvShape(s.cap, s.resv, s.enq, s.k);
    forall j | s.k <= j < |resv'| ensures Stored(mem', resv'[j], j) {
      assert Stored(s.mem, s.resv[j], j);
      if j != s.k { LiveApart(s.cap, s.resv, s.enq, s.k, s.k, j); }
      else { FilledMark(s.mem, r, |r.words| + 1, w, Leased(c)); }
    }
  }

  lemma LeaseThreads(s: State, c: nat)
    requires Inv(s) && c in s.cons && s.k < |s.resv| && s.resv[s.k].phase == Published && s.resv[s.k].pos == s.deq
    requires s.cons[c].Claim?
    ensures ProdsOk(s.cap, s.enq, s.deq, SetPhase(s.resv, s.k, Leased(c)), s.prods)
    ensures ConsOk(s.enq, s.deq, SetPhase(s.resv, s.k, Leased(c)), s.k, s.cons[c := ReadLen(s.deq)])
  {
    var resv', cons' := SetPhase(s.resv, s.k, Leased(c)), s.cons[c := ReadLen(s.deq)];
    forall q | q in s.prods ensures ProdOk(s.cap, s.enq, s.deq, resv', q, s.prods[q]) {
      assert ProdOk(s.cap, s.enq, s.deq, s.resv, q, s.prods[q]);
    }
    forall b | b in cons' && b != c ensures ConOk(s.enq, s.deq, resv', s.k, b, cons'[b]) {
      assert ConOk(s.enq, s.deq, s.resv, s.k, b, s.cons[b]);
    }
  }

  lemma ParkingSame(s: State, c: nat, st: Consumer)
    requires Inv(s) && c in s.cons
    requires HasMutex(s.cons[c]) == HasMutex(st) && Counted(s.cons[c]) == Counted(st)
    ensures Parking(s.cons[c := st], s.mutex, s.waiting)
  {
    assert Waiters(s.cons[c := st]) == Waiters(s.cons);
  }

  lemma ClaimedKeeps(s: State, c: nat, x: nat)
    requires Inv(s) && c in s.cons && s.cons[c].Claim?
    requires s.k < |s.resv| && s.resv[s.k].phase == Published && s.resv[s.k].pos == s.deq && s.resv[s.k].off == x
    ensures Inv(AtC(s, c, ReadLen(s.deq)).(mem := Poke(s.mem, x, Commit(8 * s.deq + 2, s.k)),
                                           resv := SetPhase(s.resv, s.k, Leased(c))))
  {
    var t := AtC(s, c, ReadLen(s.deq)).(mem := Poke(s.mem, x, Commit(8 * s.deq + 2, s.k)),
                                        resv := SetPhase(s.resv, s.k, Leased(c)));
    assert Cursors(t.cap, t.enq, t.deq, t.mem, t.resv, t.k) by { CursorsRelabel(s, t.mem, t.resv); }
    assert Markers(t.mem, t.resv, t.k) && Records(t.mem, t.resv, t.k) by {
      LeaseMarkers(s, c);
      LeaseRecords(s, c);
    }
    assert Owed(t.resv, t.prods);
    assert ProdsOk(t.cap, t.enq, t.deq, t.resv, t.prods) && ConsOk(t.enq, t.deq, t.resv, t.k, t.cons) by {
      LeaseThreads(s, c);
    }
    assert Parking(t.cons, t.mutex, t.waiting) by { ParkingSame(s, c, ReadLen(s.deq)); }
    assert Handed(t.delivered, t.resv, t.k) by { HandedStable(s.delivered, s.resv, t.resv, s.k); }
  }

  lemma ClaimKeeps(s: State, c: nat, d: nat)
    requires Inv(s) && c in s.cons && s.cons[c] == Claim(d)
    requires Load(s.mem, Off(s.cap, d)).raw == 8 * d + 1 ==> Load(s.mem, Off(s.cap, d)).Commit?
    ensures Inv(ClaimStep(s, c, d))
  {
    if Load(s.mem, Off(s.cap, d)).raw == 8 * d + 1 {
      ClaimHits(s, c, d);
    } else {
      MoveConsumer(s, c, ReadDeq);
    }
  }

  lemma ClaimHits(s: State, c: nat, d: nat)
    requires Inv(s) && c in s.cons && s.cons[c] == Claim(d)
    requires Load(s.mem, Off(s.cap, d)).raw == 8 * d + 1 && Load(s.mem, Off(s.cap, d)).Commit?
    ensures Inv(ClaimStep(s, c, d))
  {
    ClaimFindsFront(s, c, d);
    var x := Off(s.cap, d);
    var t := AtC(s, c, ReadLen(s.deq)).(mem := Poke(s.mem, x, Commit(8 * s.deq + 2, s.k)),
                                        resv := SetPhase(s.resv, s.k, Leased(c)));
    assert ClaimStep(s, c, d) == t;
    ClaimedKeeps(s, c, x);
  }

  /** The lease holder reads back exactly what the producer stored. */
  lemma LeasedWords(s: State, c: nat, d: nat)
    requires Inv(s) && Holds(s.deq, s.resv, s.k, c, d)
    ensures s.resv[s.k].off == Off(s.cap, d) && s.resv[s.k].off + s.resv[s.k].len <= s.cap
    ensures forall x | Off(s.cap, d) < x <= Off(s.cap, d) + |s.resv[s.k].words| ::
              Load(s.mem, x).raw == s.resv[s.k].words[x - Off(s.cap, d) - 1]
    ensures |s.resv[s.k].words| >= 6 && TotalLen(s.resv[s.k].words[3]) == 8 * s.resv[s.k].len
    ensures PadFlag(s.resv[s.k].words[4]) <==> s.resv[s.k].msg.None?
    ensures HEADER <= s.resv[s.k].len <= s.cap
  {
    var r := s.resv[s.k];
    assert Stored(s.mem, r, s.k);
    assert ResvOk(s.cap, r);
    HeaderReadsBack(s.cap, r.msg, r.len);
    forall x | r.off < x <= r.off + |r.words| ensures Load(s.mem, x).raw == r.words[x - r.off - 1] {
      assert s.mem[x] == Plain(r.words[x - r.off - 1]);
    }
  }

  lemma PassFrontLog(s: State, c: nat)
    requires Inv(s) && Holds(s.deq, s.resv, s.k, c, s.deq)
    ensures Cursors(s.cap, s.enq, s.deq + s.resv[s.k].len, s.mem, s.resv, s.k + 1)
    ensures Markers(s.mem, s.resv, s.k + 1) && Records(s.mem, s.resv, s.k + 1)
  {
    forall x | 0 <= x < |s.mem| ensures MarkerOk(s.resv, s.k + 1, x, s.mem[x]) {
      assert MarkerOk(s.resv, s.k, x, s.mem[x]);
    }
    assert EndOf(s.resv, s.k + 1) == End(s.resv[s.k]);
  }

  lemma PassFrontThreads(s: State, c: nat, st: Consumer)
    requires Inv(s) && c in s.cons && Holds(s.deq, s.resv, s.k, c, s.deq)
    requires (st.ReadDeq? || st.Done?) && (s.cons[c].Advance? || s.cons[c].Skip?)
    ensures ProdsOk(s.cap, s.enq, s.deq + s.resv[s.k].len, s.resv, s.prods)
    ensures ConsOk(s.enq, s.deq + s.resv[s.k].len, s.resv, s.k + 1, s.cons[c := st])
  {
    var cons', deq' := s.cons[c := st], s.deq + s.resv[s.k].len;
    forall q | q in s.prods ensures ProdOk(s.cap, s.enq, deq', s.resv, q, s.prods[q]) {
      assert ProdOk(s.cap, s.enq, s.deq, s.resv, q, s.prods[q]);
    }
    forall b | b in cons' && b != c ensures ConOk(s.enq, deq', s.resv, s.k + 1, b, cons'[b]) {
      assert ConOk(s.enq, s.deq, s.resv, s.k, b, s.cons[b]);
    }
  }

  lemma PassedKeeps(s: State, c: nat, st: Consumer, delivered: seq<Delivery>)
    requires Inv(s) && c in s.cons && Holds(s.deq, s.resv, s.k, c, s.deq)
    requires (st.ReadDeq? || st.Done?) && (s.cons[c].Advance? || s.cons[c].Skip?)
    requires Handed(delivered, s.resv, s.k + 1)
    ensures Inv(AtC(s, c, st).(deq := s.deq + s.resv[s.k].len, k := s.k + 1, delivered := delivered))
  {
    var t := AtC(s, c, st).(deq := s.deq + s.resv[s.k].len, k := s.k + 1, delivered := delivered);
    assert Cursors(t.cap, t.enq, t.deq, t.mem, t.resv, t.k) && Markers(t.mem, t.resv, t.k)
           && Records(t.mem, t.resv, t.k) by { PassFrontLog(s, c); }
    assert ProdsOk(t.cap, t.enq, t.deq, t.resv, t.prods) && ConsOk(t.enq, t.deq, t.resv, t.k, t.cons) by {
      PassFrontThreads(s, c, st);
    }
    assert Parking(t.cons, t.mutex, t.waiting) by { ParkingSame(s, c, st); }
  }

  lemma HandedOne(delivered: seq<Delivery>, resv: seq<Resv>, k: nat, v: Delivery)
    requires k < |resv| && Handed(delivered, resv, k) && resv[k].msg.Some? && Faithful(v, resv[k])
    ensures Handed(delivered + [v], resv, k + 1)
  {
    assert (delivered + [v])[..|delivered|] == delivered;
  }

  lemma AdvanceKeeps(s: State, c: nat, d: nat, total: nat, words: seq<nat>)
    requires Inv(s) && c in s.cons && s.cons[c] == Advance(d, total, words)
    ensures Inv(AdvanceStep(s, c, d, total, words))
  {
    assert ConOk(s.enq, s.deq, s.resv, s.k, c, s.cons[c]);
    var v := Delivery(d, c, words);
    HandedOne(s.delivered, s.resv, s.k, v);
    PassedKeeps(s, c, Done(Some(d)), s.delivered + [v]);
  }

  lemma SkipKeeps(s: State, c: nat, d: nat, total: nat)
    requires Inv(s) && c in s.cons && s.cons[c] == Skip(d, total)
    ensures Inv(SkipStep(s, c, d, total))
  {
    assert ConOk(s.enq, s.deq, s.resv, s.k, c, s.cons[c]);
    PassedKeeps(s, c, ReadDeq, s.delivered);
  }

  lemma CopyStays(s: State, c: nat, d: nat, total: nat, words: seq<nat>)
    requires Inv(s) && ConOk(s.enq, s.deq, s.resv, s.k, c, Copy(d, total, words))
    ensures ConOk(s.enq, s.deq, s.resv, s.k, c, Glance(s, Copy(d, total, words), false))
  {
    if |words| < total {
      LeasedWords(s, c, d);
      var w := Load(s.mem, Off(s.cap, d) + |words|).raw;
      assert Staged(words + [w], s.resv[s.k]);
    }
  }

  lemma HeaderStays(s: State, c: nat, st: Consumer)
    requires Inv(s) && ConOk(s.enq, s.deq, s.resv, s.k, c, st) && (st.ReadLen? || st.ReadFlags?)
    ensures ConOk(s.enq, s.deq, s.resv, s.k, c, Glance(s, st, false))
  {
    LeasedWords(s, c, st.d);
    var r := s.resv[s.k];
    assert Load(s.mem, Off(s.cap, st.d) + 4).raw == r.words[3];
    assert Load(s.mem, Off(s.cap, st.d) + 5).raw == r.words[4];
  }

  lemma ParkEnqStays(s: State, c: nat, d: nat, timeUp: bool)
    requires Inv(s) && d <= s.deq
    ensures ConOk(s.enq, s.deq, s.resv, s.k, c, Glance(s, ParkEnq(d), timeUp))
  {
    forall i | 0 <= i < |s.resv| ensures s.resv[i].pos < s.enq {
      ResvShape(s.cap, s.resv, s.enq, i);
      TilesAscend(s.cap, s.resv, s.enq, i, |s.resv|);
    }
  }

  lemma GlanceStays(s: State, c: nat, st: Consumer, timeUp: bool)
    requires Inv(s) && ConOk(s.enq, s.deq, s.resv, s.k, c, st) && !Parks(st) && !st.Claim? && !st.Advance? && !st.Skip?
    ensures ConOk(s.enq, s.deq, s.resv, s.k, c, Glance(s, st, timeUp))
  {
    if st.Copy? { CopyStays(s, c, st.d, st.total, st.words); }
    else if st.ReadLen? || st.ReadFlags? { HeaderStays(s, c, st); }
    else if st.ParkEnq? { ParkEnqStays(s, c, st.d, timeUp); }
  }

  lemma GlanceKeeps(s: State, c: nat, timeUp: bool)
    requires Inv(s) && c in s.cons && !Parks(s.cons[c]) && !s.cons[c].Claim? && !s.cons[c].Advance? && !s.cons[c].Skip?
    ensures Inv(AtC(s, c, Glance(s, s.cons[c], timeUp)))
  {
    assert ConOk(s.enq, s.deq, s.resv, s.k, c, s.cons[c]);
    GlanceStays(s, c, s.cons[c], timeUp);
    MoveConsumer(s, c, Glance(s, s.cons[c], timeUp));
  }

  /** A step that takes or gives back the mutex, or moves the waiting counter. */
  lemma MoveParking(s: State, c: nat, st: Consumer, mutex: Option<nat>, waiting: nat)
    requires Inv(s) && c in s.cons && ConOk(s.enq, s.deq, s.resv, s.k, c, st)
    requires Parking(s.cons[c := st], mutex, waiting)
    ensures Inv(AtC(s, c, st).(mutex := mutex, waiting := waiting))
  {
    var cons' := s.cons[c := st];
    forall b | b in cons' ensures ConOk(s.enq, s.deq, s.resv, s.k, b, cons'[b]) {
      if b != c { assert ConOk(s.enq, s.deq, s.resv, s.k, b, s.cons[b]); }
    }
  }

  lemma LockKeeps(s: State, c: nat, st: Consumer)
    requires Inv(s) && c in s.cons && ConOk(s.enq, s.deq, s.resv, s.k, c, st)
    requires s.mutex.None? && HasMutex(st) && Counted(st) == Counted(s.cons[c])
    ensures Inv(AtC(s, c, st).(mutex := Some(c)))
  {
    assert Waiters(s.cons[c := st]) == Waiters(s.cons);
    MoveParking(s, c, st, Some(c), s.waiting);
  }

  lemma UnlockKeeps(s: State, c: nat, st: Consumer)
    requires Inv(s) && c in s.cons && ConOk(s.enq, s.deq, s.resv, s.k, c, st)
    requires HasMutex(s.cons[c]) && !HasMutex(st) && Counted(st) == Counted(s.cons[c])
    ensures Inv(AtC(s, c, st).(mutex := None))
  {
    assert Waiters(s.cons[c := st]) == Waiters(s.cons);
    MoveParking(s, c, st, None, s.waiting);
  }

  lemma CountKeeps(s: State, c: nat)
    requires Inv(s) && c in s.cons && s.cons[c].ParkCount?
    ensures Inv(AtC(s, c, ParkDeq).(waiting := s.waiting + 1))
  {
    assert Waiters(s.cons[c := ParkDeq]) == Waiters(s.cons) + {c} && c !in Waiters(s.cons);
    MoveParking(s, c, ParkDeq, s.mutex, s.waiting + 1);
  }

  lemma UncountKeeps(s: State, c: nat)
    requires Inv(s) && c in s.cons && s.cons[c].Unpark?
    ensures s.waiting > 0 && Inv(AtC(s, c, ParkUnlock).(waiting := s.waiting - 1))
  {
    assert Waiters(s.cons[c := ParkUnlock]) == Waiters(s.cons) - {c} && c in Waiters(s.cons);
    MoveParking(s, c, ParkUnlock, s.mutex, s.waiting - 1);
  }

  lemma ParkKeeps(s: State, c: nat, st: Consumer)
    requires Inv(s) && c in s.cons && s.cons[c] == st && Parks(st)
    ensures Inv(ParkStep(s, c, st))
  {
    match st
    case ParkLock => if s.mutex.None? { LockKeeps(s, c, ParkCount); }
    case ParkCount => CountKeeps(s, c);
    case ParkWait(e) =>
      assert ConOk(s.enq, s.deq, s.resv, s.k, c, st);
      UnlockKeeps(s, c, Parked(e));
    case Woken => if s.mutex.None? { LockKeeps(s, c, Unpark); }
    case Unpark => UncountKeeps(s, c);
    case ParkUnlock => UnlockKeeps(s, c, ReadDeq);
  }

  lemma ConsumerKeeps(s: State, c: nat, timeUp: bool)
    requires Inv(s) && c in s.cons && NoAlias(s, Consume(c, timeUp))
    ensures Inv(Consumed(s, c, timeUp))
  {
    var st := s.cons[c];
    if st.Claim? { ClaimKeeps(s, c, st.d); }
    else if st.Advance? { AdvanceKeeps(s, c, st.d, st.total, st.words); }
    else if st.Skip? { SkipKeeps(s, c, st.d, st.total); }
    else if Parks(st) { ParkKeeps(s, c, st); }
    else { GlanceKeeps(s, c, timeUp); }
  }

  lemma InitKeeps(s: State)
    requires Init(s)
    ensures Inv(s)
  {
    assert Waiters(s.cons) == {};
  }

  lemma NextKeeps(s: State, a: Action, t: State)
    requires Inv(s) && Next(s, a, t) && NoAlias(s, a)
    ensures Inv(t)
  {
    match a
    case Put(p, m) => MoveProducer(s, p, TestClosed(m));
    case Produce(p) => ProducerKeeps(s, p);
    case Get(c) => MoveConsumer(s, c, ReadDeq);
    case Consume(c, timeUp) => ConsumerKeeps(s, c, timeUp);
    case Close =>
    case KickConsumer => if s.waiting > 0 && s.mutex.None? { WakeKeeps(s); }
  }

  /** The invariant holds in every state of every run. */
  lemma {:induction false} RunKeeps(tr: seq<State>, acts: seq<Action>, t: nat)
    requires Run(tr, acts) && Unaliased(tr, acts) && t < |tr|
    ensures Inv(tr[t])
  {
    if t == 0 {
      InitKeeps(tr[0]);
    } else {
      RunKeeps(tr, acts, t - 1);
      NextKeeps(tr[t - 1], acts[t - 1], tr[t]);
    }
  }
}
