/** What every step of the SPSC overwrite ring keeps. */
module SpscInvariant {
  import opened Options
  import opened RingLayout
  import opened SpscRing

  // ---------------------------------------------------------------- the invariant

  ghost predicate Cursors(cap: nat, enq: nat, deq: nat, mem: seq<Word>, resv: seq<Resv>, k: nat) {
    && CapOk(cap) && |mem| == cap && Tiled(cap, resv, enq)
    && k <= |resv| && deq == EndOf(resv, k) && enq <= deq + cap
  }

  ghost predicate MarkerOk(resv: seq<Resv>, x: nat, w: Word) {
    w.Commit? && w.raw != 0 ==>
      && w.rec < |resv| && resv[w.rec].off == x
      && w.raw == 8 * resv[w.rec].pos + 1 && resv[w.rec].phase == Published
  }

  ghost predicate Markers(mem: seq<Word>, resv: seq<Resv>) {
    forall x {:trigger MarkerOk(resv, x, mem[x])} | 0 <= x < |mem| :: MarkerOk(resv, x, mem[x])
  }

  /** The words the producer has stored for r are in memory. */
  ghost predicate Filled(mem: seq<Word>, r: Resv) {
    && !r.phase.Leased? && r.off + r.len <= |mem| && |r.words| < r.len
    && forall x | r.off < x < r.off + Progress(r) :: mem[x] == Plain(r.words[x - r.off - 1])
  }

  function Progress(r: Resv): (n: nat)
    ensures n <= |r.words| + 1
  {
    if r.phase.Writing? && r.phase.n <= |r.words| + 1 then r.phase.n else |r.words| + 1
  }

  /** A record keeps its content until the producer reserves its words again, a whole lap
      later, whether or not deq has passed it. */
  ghost predicate Contents(cap: nat, enq: nat, mem: seq<Word>, resv: seq<Resv>) {
    forall i {:trigger Filled(mem, resv[i])} | 0 <= i < |resv| && enq <= resv[i].pos + cap :: Filled(mem, resv[i])
  }

  /** Only the newest record can be unfinished, and only while the producer stores it. */
  ghost predicate Phases(resv: seq<Resv>, st: Producer) {
    forall i | 0 <= i < |resv| && resv[i].phase != Published :: i == |resv| - 1 && st.Store?
  }

  ghost predicate PlanOk(cap: nat, enq: nat, pl: Plan)
    requires cap > 0
  {
    pl.pos == enq && PlanShape(cap, pl)
  }

  /** Record `rec` starts at d, deq is there or beyond, and its words are not reused yet. */
  ghost predicate Victim(cap: nat, enq: nat, deq: nat, resv: seq<Resv>, k: nat, d: nat, rec: nat) {
    && rec <= k && rec < |resv| && resv[rec].pos == d && d <= deq && enq <= d + cap
    && (rec < k ==> d < deq)
  }

  ghost predicate ProdOk(cap: nat, enq: nat, deq: nat, resv: seq<Resv>, k: nat, st: Producer)
    requires cap > 0
  {
    match st
    case Idle => true
    case TestClosed(m) => MsgOk(cap, m)
    case ReadEnq(m, total) => MsgOk(cap, m) && RecordLen(m) <= total <= cap
    case TestSpace(pl, _) => PlanOk(cap, enq, pl)
    case StealDeq(pl) => PlanOk(cap, enq, pl)
    case StealLen(pl, d, rec) => PlanOk(cap, enq, pl) && Victim(cap, enq, deq, resv, k, d, rec)
    case StealMark(pl, d, rec, oldLen) =>
      PlanOk(cap, enq, pl) && Victim(cap, enq, deq, resv, k, d, rec) && oldLen == resv[rec].len
    case StealCas(pl, d, rec, oldLen) =>
      PlanOk(cap, enq, pl) && Victim(cap, enq, deq, resv, k, d, rec) && oldLen == resv[rec].len
    case StealFlags(pl, d, rec) =>
      PlanOk(cap, enq, pl) && Victim(cap, enq, deq, resv, k, d, rec) && rec < k
    case Reserve(pl) => PlanOk(cap, enq, pl) && pl.pos + pl.len <= deq + cap
    case Store(pl, n) =>
      && |resv| > 0 && resv[|resv| - 1] == Reservation(cap, 0, pl, n) && n <= |Image(Content(pl), pl.len)| + 1
      && MsgOk(cap, pl.m) && RecordLen(pl.m) <= pl.total <= cap
  }

  ghost predicate Live(resv: seq<Resv>, k: nat, d: nat) {
    k < |resv| && resv[k].pos == d && resv[k].phase == Published
  }

  /** What the consumer has read is right as long as deq is still where it started. */
  ghost predicate ConOk(enq: nat, deq: nat, resv: seq<Resv>, k: nat, st: Consumer) {
    match st
    case ReadTail(d) => d <= deq
    case Fresh(d) => d <= deq && d < enq
    case ReadMark(d) => d <= deq && d < enq
    case ReadLen(d) => d <= deq && (d == deq ==> Live(resv, k, d))
    case ReadFlags(d, total) => d <= deq && (d == deq ==> Live(resv, k, d) && total == resv[k].len)
    case Copy(d, total, words) =>
      && d <= deq && |words| <= total
      && (d == deq ==> Live(resv, k, d) && total == resv[k].len && resv[k].msg.Some? && Staged(words, resv[k]))
    case Check(d, total, words) => CopyDone(deq, resv, k, d, total, words)
    case Advance(d, total, words) => CopyDone(deq, resv, k, d, total, words)
    case Skip(d, total) => d <= deq && (d == deq ==> Live(resv, k, d) && total == resv[k].len && resv[k].msg.None?)
    case _ => true
  }

  ghost predicate CopyDone(deq: nat, resv: seq<Resv>, k: nat, d: nat, total: nat, words: seq<nat>) {
    && d <= deq && |words| == total
    && (d == deq ==> Live(resv, k, d) && total == resv[k].len && resv[k].msg.Some? && Staged(words, resv[k]))
  }

  ghost predicate Faithful(v: Delivery, r: Resv) {
    v.pos == r.pos && |v.words| == r.len && Staged(v.words, r)
  }

  /** The deliveries, in order, are exactly the entries whose fate is Taken. */
  ghost predicate Handed(delivered: seq<Delivery>, resv: seq<Resv>, fates: seq<Fate>, k: nat)
    requires k <= |resv| && k <= |fates|
  {
    if k == 0 then delivered == []
    else if fates[k - 1] != Taken then Handed(delivered, resv, fates, k - 1)
    else
      && |delivered| > 0 && Faithful(delivered[|delivered| - 1], resv[k - 1]) && resv[k - 1].msg.Some?
      && Handed(delivered[..|delivered| - 1], resv, fates, k - 1)
  }

  function StolenMessages(resv: seq<Resv>, fates: seq<Fate>, k: nat): nat
    requires k <= |resv| && k <= |fates|
  {
    if k == 0 then 0
    else StolenMessages(resv, fates, k - 1) + if fates[k - 1] == Stolen && resv[k - 1].msg.Some? then 1 else 0
  }

  ghost predicate Passed(s: State) {
    && |s.fates| <= |s.resv|
    && Handed(s.delivered, s.resv, s.fates, |s.fates|)
    && (forall i | 0 <= i < |s.fates| && s.fates[i] == Skipped :: s.resv[i].msg.None?)
    && s.overwritten + PendingCount(s.resv, s.prod) == StolenMessages(s.resv, s.fates, |s.fates|)
  }

  /** A stolen message the producer has not counted yet. */
  function PendingCount(resv: seq<Resv>, st: Producer): nat {
    if st.StealFlags? && st.rec < |resv| && resv[st.rec].msg.Some? then 1 else 0
  }

  ghost predicate Inv(s: State) {
    && Cursors(s.cap, s.enq, s.deq, s.mem, s.resv, |s.fates|)
    && Markers(s.mem, s.resv) && Contents(s.cap, s.enq, s.mem, s.resv) && Phases(s.resv, s.prod)
    && ProdOk(s.cap, s.enq, s.deq, s.resv, |s.fates|, s.prod)
    && ConOk(s.enq, s.deq, s.resv, |s.fates|, s.con)
    && Passed(s) && (s.dropped > 0 ==> s.closed)
  }

  // ---------------------------------------------------------------- the front record

  lemma Front(s: State)
    requires Inv(s) && |s.fates| < |s.resv|
    ensures var r := s.resv[|s.fates|];
            && r.pos == s.deq && r.off == Off(s.cap, s.deq) && r.off + r.len <= s.cap && HEADER <= r.len
            && s.deq < s.enq
  {
    ResvShape(s.cap, s.resv, s.enq, |s.fates|);
    TilesAscend(s.cap, s.resv, s.enq, |s.fates|, |s.resv|);
  }

  /** A published record whose words are not reused reads back as stored. */
  lemma ReadsBack(s: State, i: nat)
    requires Inv(s) && i < |s.resv| && s.enq <= s.resv[i].pos + s.cap && s.resv[i].phase == Published
    ensures var r := s.resv[i];
            && r.off == Off(s.cap, r.pos) && HEADER <= r.len <= s.cap && |r.words| >= 6
            && (forall x | r.off < x <= r.off + |r.words| :: Load(s.mem, x).raw == r.words[x - r.off - 1])
            && TotalLen(Load(s.mem, r.off + 4).raw) == 8 * r.len
            && (PadFlag(Load(s.mem, r.off + 5).raw) <==> r.msg.None?)
  {
    var r := s.resv[i];
    assert Filled(s.mem, r);
    assert ResvOk(s.cap, r);
    HeaderReadsBack(s.cap, r.msg, r.len);
    forall x | r.off < x <= r.off + |r.words| ensures Load(s.mem, x).raw == r.words[x - r.off - 1] {
      assert s.mem[x] == Plain(r.words[x - r.off - 1]);
    }
    assert Load(s.mem, r.off + 4).raw == r.words[3] && Load(s.mem, r.off + 5).raw == r.words[4];
  }

  // ---------------------------------------------------------------- put

  lemma MoveProducer(s: State, st: Producer)
    requires Inv(s) && ProdOk(s.cap, s.enq, s.deq, s.resv, |s.fates|, st)
    requires s.prod.Store? == st.Store? && PendingCount(s.resv, s.prod) == PendingCount(s.resv, st)
    ensures Inv(s.(prod := st))
  {
  }

  lemma StealDeqKeeps(s: State, pl: Plan)
    requires Inv(s) && s.prod == StealDeq(pl)
    ensures Inv(StealStep(s))
  {
    if pl.pos + pl.len <= s.deq + s.cap {
      MoveProducer(s, if pl.pad then Reserve(pl) else ReadEnq(pl.m, pl.total));
    } else {
      assert |s.fates| < |s.resv|;
      Front(s);
      MoveProducer(s, StealLen(pl, s.deq, |s.fates|));
    }
  }

  lemma StealLenKeeps(s: State, pl: Plan, d: nat, rec: nat)
    requires Inv(s) && s.prod == StealLen(pl, d, rec)
    ensures Inv(StealStep(s)) && StealStep(s).dropped == s.dropped
  {
    ReadsBack(s, rec);
    MoveProducer(s, StealMark(pl, d, rec, s.resv[rec].len));
  }

  /** Clearing the victim's marker touches no stored word of any record. */
  lemma StealMarkKeeps(s: State, pl: Plan, d: nat, rec: nat, oldLen: nat)
    requires Inv(s) && s.prod == StealMark(pl, d, rec, oldLen)
    ensures Inv(StealStep(s))
  {
    var t := StealStep(s);
    var x := Off(s.cap, d);
    ResvShape(s.cap, s.resv, s.enq, rec);
    forall y | 0 <= y < |t.mem| ensures MarkerOk(t.resv, y, t.mem[y]) { assert MarkerOk(s.resv, y, s.mem[y]); }
    forall i | 0 <= i < |t.resv| && t.enq <= t.resv[i].pos + t.cap ensures Filled(t.mem, t.resv[i]) {
      assert Filled(s.mem, s.resv[i]);
      IntactApart(s, rec, i);
    }
  }

  /** Two records that are both not reused are physically apart. */
  lemma IntactApart(s: State, i: nat, j: nat)
    requires Inv(s) && i < |s.resv| && j < |s.resv|
    requires s.enq <= s.resv[i].pos + s.cap && s.enq <= s.resv[j].pos + s.cap
    ensures i != j ==> Apart(s.resv[i], s.resv[j])
  {
    if i != j { LiveApart(s.cap, s.resv, s.enq, if i < j then i else j, i, j); }
  }

  lemma StolenOne(resv: seq<Resv>, fates: seq<Fate>, f: Fate, k: nat)
    requires k <= |fates| && k <= |resv|
    ensures StolenMessages(resv, fates + [f], k) == StolenMessages(resv, fates, k)
  {
    if k > 0 { StolenOne(resv, fates, f, k - 1); }
  }

  lemma {:induction false} HandedMore(delivered: seq<Delivery>, resv: seq<Resv>, fates: seq<Fate>, f: Fate, k: nat)
    requires k <= |fates| && k <= |resv| && Handed(delivered, resv, fates, k)
    ensures Handed(delivered, resv, fates + [f], k)
  {
    if k > 0 {
      if fates[k - 1] != Taken { HandedMore(delivered, resv, fates, f, k - 1); }
      else { HandedMore(delivered[..|delivered| - 1], resv, fates, f, k - 1); }
    }
  }

  /** deq passes the front record. */
  lemma PassCursors(s: State)
    requires Inv(s) && |s.fates| < |s.resv|
    ensures Cursors(s.cap, s.enq, s.deq + s.resv[|s.fates|].len, s.mem, s.resv, |s.fates| + 1)
  {
    assert EndOf(s.resv, |s.fates| + 1) == End(s.resv[|s.fates|]);
    Front(s);
  }

  lemma PassConsumer(s: State)
    requires Inv(s) && |s.fates| < |s.resv|
    ensures ConOk(s.enq, s.deq + s.resv[|s.fates|].len, s.resv, |s.fates| + 1, s.con)
  {
    Front(s);
  }

  lemma StealCasKeeps(s: State, pl: Plan, d: nat, rec: nat, oldLen: nat)
    requires Inv(s) && s.prod == StealCas(pl, d, rec, oldLen)
    ensures Inv(StealStep(s))
  {
    if s.deq != d {
      MoveProducer(s, StealDeq(pl));
    } else {
      var t := StealStep(s);
      var k := |s.fates|;
      assert rec == k;
      PassCursors(s);
      PassConsumer(s);
      Front(s);
      hide Markers, Contents, Tiled, ConOk;
      assert Passed(t) by {
        HandedMore(s.delivered, s.resv, s.fates, Stolen, k);
        StolenOne(s.resv, s.fates, Stolen, k);
      }
    }
  }

  lemma StealFlagsKeeps(s: State, pl: Plan, d: nat, rec: nat)
    requires Inv(s) && s.prod == StealFlags(pl, d, rec)
    ensures Inv(StealStep(s))
  {
    ReadsBack(s, rec);
  }

  lemma ReserveCursors(s: State, r: Resv)
    requires Inv(s) && r.pos == s.enq && ResvOk(s.cap, r) && r.pos + r.len <= s.deq + s.cap
    ensures Cursors(s.cap, s.enq + r.len, s.deq, s.mem, s.resv + [r], |s.fates|)
  {
    TiledExtend(s.cap, s.resv, s.enq, r);
  }

  lemma ReserveContents(s: State, r: Resv)
    requires Inv(s) && !s.prod.Store? && r.phase == Writing(0) && |r.words| < r.len && r.off + r.len <= s.cap
    ensures Markers(s.mem, s.resv + [r]) && Contents(s.cap, s.enq + r.len, s.mem, s.resv + [r])
  {
    var resv' := s.resv + [r];
    forall x | 0 <= x < |s.mem| ensures MarkerOk(resv', x, s.mem[x]) { assert MarkerOk(s.resv, x, s.mem[x]); }
    forall i | 0 <= i < |resv'| && s.enq + r.len <= resv'[i].pos + s.cap ensures Filled(s.mem, resv'[i]) {
      if i < |s.resv| { assert Filled(s.mem, s.resv[i]); }
    }
  }

  lemma {:induction false} PassedStable(s: State, resv': seq<Resv>, delivered: seq<Delivery>, k: nat)
    requires k <= |s.fates| <= |s.resv| && |s.fates| <= |resv'| && Handed(delivered, s.resv, s.fates, k)
    requires forall i | 0 <= i < |s.fates| ::
               resv'[i] == s.resv[i].(phase := resv'[i].phase, kicked := resv'[i].kicked)
    ensures Handed(delivered, resv', s.fates, k)
    ensures StolenMessages(resv', s.fates, k) == StolenMessages(s.resv, s.fates, k)
  {
    if k > 0 {
      if s.fates[k - 1] != Taken {
        PassedStable(s, resv', delivered, k - 1);
      } else {
        PassedStable(s, resv', delivered[..|delivered| - 1], k - 1);
      }
    }
  }

  lemma ReserveFacts(s: State, pl: Plan, r: Resv)
    requires Inv(s) && s.prod == Reserve(pl) && r == Reservation(s.cap, 0, pl, 0)
    ensures ResvOk(s.cap, r) && |r.words| < r.len && r.pos == s.enq && r.len == pl.len
    ensures ProdOk(s.cap, s.enq + r.len, s.deq, s.resv + [r], |s.fates|, Store(pl, 0))
  {
  }

  lemma ReserveKeeps(s: State, pl: Plan, r: Resv)
    requires Inv(s) && s.prod == Reserve(pl) && r == Reservation(s.cap, 0, pl, 0)
    ensures Inv(s.(prod := Store(pl, 0), enq := s.enq + r.len, resv := s.resv + [r]))
  {
    var t := s.(prod := Store(pl, 0), enq := s.enq + r.len, resv := s.resv + [r]);
    ReserveFacts(s, pl, r);
    assert Cursors(t.cap, t.enq, t.deq, t.mem, t.resv, |t.fates|) by { ReserveCursors(s, r); }
    assert Markers(t.mem, t.resv) && Contents(t.cap, t.enq, t.mem, t.resv) by { ReserveContents(s, r); }
    assert Passed(t) by { PassedStable(s, t.resv, s.delivered, |s.fates|); }
  }

  // ---------------------------------------------------------------- storing the record

  /** The producer writes word x of the newest record and moves its phase on. */
  ghost predicate StoresInto(s: State, x: nat, w: Word, ph: Phase) {
    var i := |s.resv| - 1;
    && |s.resv| > 0 && s.prod.Store? && s.resv[i].phase.Writing? && !ph.Leased?
    && s.resv[i].off <= x < s.resv[i].off + s.resv[i].len && x < |s.mem|
    && MarkerOk(SetPhase(s.resv, i, ph), x, w)
    && Filled(s.mem[x := w], s.resv[i].(phase := ph))
  }

  lemma StoreContents(s: State, x: nat, w: Word, ph: Phase)
    requires Inv(s) && StoresInto(s, x, w, ph)
    ensures Markers(s.mem[x := w], SetPhase(s.resv, |s.resv| - 1, ph))
    ensures Contents(s.cap, s.enq, s.mem[x := w], SetPhase(s.resv, |s.resv| - 1, ph))
  {
    var last := |s.resv| - 1;
    var mem', resv' := s.mem[x := w], SetPhase(s.resv, last, ph);
    forall y | 0 <= y < |mem'| ensures MarkerOk(resv', y, mem'[y]) { assert MarkerOk(s.resv, y, s.mem[y]); }
    ResvShape(s.cap, s.resv, s.enq, last);
    forall i | 0 <= i < |resv'| && s.enq <= resv'[i].pos + s.cap ensures Filled(mem', resv'[i]) {
      assert Filled(s.mem, s.resv[i]);
      IntactApart(s, last, i);
    }
  }

  lemma StoreKeeps(s: State, x: nat, w: Word, ph: Phase, st: Producer)
    requires Inv(s) && StoresInto(s, x, w, ph) && (ph == Published || st.Store?)
    requires ProdOk(s.cap, s.enq, s.deq, SetPhase(s.resv, |s.resv| - 1, ph), |s.fates|, st) && !st.StealFlags?
    ensures Inv(s.(prod := st, mem := s.mem[x := w], resv := SetPhase(s.resv, |s.resv| - 1, ph)))
  {
    hide Markers, Contents, ProdOk;
    var resv' := SetPhase(s.resv, |s.resv| - 1, ph);
    var t := s.(prod := st, mem := s.mem[x := w], resv := resv');
    StoreCursors(s, x, w, ph);
    StoreContents(s, x, w, ph);
    StoreHistory(s, x, w, ph);
    hide Cursors, ConOk, Handed, StolenMessages;
  }

  lemma StoreCursors(s: State, x: nat, w: Word, ph: Phase)
    requires Inv(s) && StoresInto(s, x, w, ph)
    ensures Cursors(s.cap, s.enq, s.deq, s.mem[x := w], SetPhase(s.resv, |s.resv| - 1, ph), |s.fates|)
  {
    var resv' := SetPhase(s.resv, |s.resv| - 1, ph);
    hide Markers, Contents, ProdOk, ConOk, Passed;
    assert Relabels(s.resv, resv');
    TiledRelabel(s.cap, s.resv, resv', s.enq);
    EndsRelabel(s.resv, resv', |s.fates|);
  }

  lemma StoreHistory(s: State, x: nat, w: Word, ph: Phase)
    requires Inv(s) && StoresInto(s, x, w, ph)
    ensures var resv' := SetPhase(s.resv, |s.resv| - 1, ph);
            ConOk(s.enq, s.deq, resv', |s.fates|, s.con) && |s.fates| <= |resv'|
            && Handed(s.delivered, resv', s.fates, |s.fates|)
            && StolenMessages(resv', s.fates, |s.fates|) == StolenMessages(s.resv, s.fates, |s.fates|)
  {
    hide Markers, Contents, ProdOk, Tiled;
    PassedStable(s, SetPhase(s.resv, |s.resv| - 1, ph), s.delivered, |s.fates|);
  }

  lemma StoreEntry(s: State, pl: Plan, n: nat)
    requires Inv(s) && s.prod == Store(pl, n)
    ensures |s.resv| > 0
    ensures var r := s.resv[|s.resv| - 1];
            && r == Reservation(s.cap, 0, pl, n) && Filled(s.mem, r) && n <= |r.words| + 1
            && MsgOk(s.cap, pl.m) && RecordLen(pl.m) <= pl.total <= s.cap
  {
    ResvShape(s.cap, s.resv, s.enq, |s.resv| - 1);
    assert s.enq == End(s.resv[|s.resv| - 1]);
    assert Filled(s.mem, s.resv[|s.resv| - 1]);
  }

  lemma FilledNext(mem: seq<Word>, r: Resv, n: nat)
    requires Filled(mem, r) && r.phase == Writing(n) && 0 < n <= |r.words|
    ensures Filled(mem[r.off + n := Plain(r.words[n - 1])], r.(phase := Writing(n + 1)))
  {
  }

  lemma FilledMark(mem: seq<Word>, r: Resv, w: Word, ph: Phase)
    requires Filled(mem, r) && !ph.Leased? && Progress(r.(phase := ph)) <= if Progress(r) == 0 then 1 else Progress(r)
    ensures Filled(mem[r.off := w], r.(phase := ph))
  {
  }

  lemma StoreStepKeeps(s: State, pl: Plan, n: nat)
    requires Inv(s) && s.prod == Store(pl, n)
    ensures |s.resv| > 0 && Inv(StoreStep(s, pl, n))
  {
    StoreEntry(s, pl, n);
    if n == 0 { InvalidateKeeps(s, pl); }
    else if n <= |Image(Content(pl), pl.len)| { FillKeeps(s, pl, n); }
    else { PublishKeeps(s, pl, n); }
  }

  lemma InvalidateKeeps(s: State, pl: Plan)
    requires Inv(s) && s.prod == Store(pl, 0)
    ensures |s.resv| > 0 && Inv(StoreStep(s, pl, 0))
  {
    StoreEntry(s, pl, 0);
    var r, w := s.resv[|s.resv| - 1], Commit(0, |s.resv| - 1);
    FilledMark(s.mem, r, w, Writing(1));
    StoreKeeps(s, r.off, w, Writing(1), Store(pl, 1));
  }

  lemma FillKeeps(s: State, pl: Plan, n: nat)
    requires Inv(s) && s.prod == Store(pl, n) && 0 < n <= |Image(Content(pl), pl.len)|
    ensures |s.resv| > 0 && Inv(StoreStep(s, pl, n))
  {
    StoreEntry(s, pl, n);
    var r := s.resv[|s.resv| - 1];
    FilledNext(s.mem, r, n);
    StoreKeeps(s, r.off + n, Plain(r.words[n - 1]), Writing(n + 1), Store(pl, n + 1));
  }

  lemma PublishKeeps(s: State, pl: Plan, n: nat)
    requires Inv(s) && s.prod == Store(pl, n) && n > |Image(Content(pl), pl.len)|
    ensures |s.resv| > 0 && Inv(StoreStep(s, pl, n))
  {
    StoreEntry(s, pl, n);
    var r, w := s.resv[|s.resv| - 1], Commit(8 * pl.pos + 1, |s.resv| - 1);
    FilledMark(s.mem, r, w, Published);
    StoreKeeps(s, r.off, w, Published, if pl.pad then ReadEnq(pl.m, pl.total) else Idle);
  }

  lemma StealKeeps(s: State)
    requires Inv(s) && Stealing(s.prod)
    ensures Inv(StealStep(s))
  {
    match s.prod
    case StealDeq(pl) => StealDeqKeeps(s, pl);
    case StealLen(pl, d, rec) => StealLenKeeps(s, pl, d, rec);
    case StealMark(pl, d, rec, oldLen) => StealMarkKeeps(s, pl, d, rec, oldLen);
    case StealCas(pl, d, rec, oldLen) => StealCasKeeps(s, pl, d, rec, oldLen);
    case StealFlags(pl, d, rec) => StealFlagsKeeps(s, pl, d, rec);
  }

  lemma ReadEnqKeeps(s: State, m: Msg, total: nat)
    requires Inv(s) && s.prod == ReadEnq(m, total)
    ensures Inv(s.(prod := TestSpace(PlanAt(s.cap, m, total, s.enq), false)))
  {
    StartsFit(s.cap, s.resv, s.enq);
    PlanFits(s.cap, m, total, s.enq);
    MoveProducer(s, TestSpace(PlanAt(s.cap, m, total, s.enq), false));
  }

  lemma TestSpaceKeeps(s: State, pl: Plan, second: bool)
    requires Inv(s) && s.prod == TestSpace(pl, second)
    ensures Inv(Produced(s))
  {
    hide Cursors, Markers, Contents, ConOk, PlanShape, Handed, StolenMessages;
  }

  lemma IdleKeeps(s: State)
    requires Inv(s) && (s.prod.Idle? || s.prod.TestClosed?)
    ensures Inv(Produced(s))
  {
    hide Cursors, Markers, Contents, ConOk, Handed, StolenMessages;
  }

  lemma ProducerKeeps(s: State)
    requires Inv(s)
    ensures Inv(Produced(s))
  {
    var st := s.prod;
    if st.Idle? || st.TestClosed? { IdleKeeps(s); }
    hide Inv;
    match st
    case ReadEnq(m, total) => ReadEnqKeeps(s, m, total);
    case TestSpace(pl, second) => TestSpaceKeeps(s, pl, second);
    case Reserve(pl) =>
      ReserveKeeps(s, pl, Reservation(s.cap, 0, pl, 0));
      ReserveFacts(s, pl, Reservation(s.cap, 0, pl, 0));
    case Store(pl, n) => StoreStepKeeps(s, pl, n);
    case _ => if Stealing(st) { StealKeeps(s); }
  }

  // ---------------------------------------------------------------- get

  lemma CopyStays(s: State, d: nat, total: nat, words: seq<nat>, timeUp: bool)
    requires Inv(s) && s.con == Copy(d, total, words)
    ensures ConOk(s.enq, s.deq, s.resv, |s.fates|, Glance(s, timeUp))
  {
    if |words| < total && d == s.deq {
      ReadsBack(s, |s.fates|);
      var w := Load(s.mem, Off(s.cap, d) + |words|).raw;
      assert Staged(words + [w], s.resv[|s.fates|]);
    }
  }

  lemma HeaderStays(s: State, timeUp: bool)
    requires Inv(s) && (s.con.ReadLen? || s.con.ReadFlags?)
    ensures ConOk(s.enq, s.deq, s.resv, |s.fates|, Glance(s, timeUp))
  {
    if s.con.d == s.deq { ReadsBack(s, |s.fates|); }
  }

  /** With no alias, a marker seen at deq belongs to the published front record. */
  lemma MarkStays(s: State, d: nat, timeUp: bool)
    requires Inv(s) && s.con == ReadMark(d) && NoAlias(s, Consume(timeUp))
    ensures ConOk(s.enq, s.deq, s.resv, |s.fates|, Glance(s, timeUp))
  {
    if d == s.deq {
      var x, k := Off(s.cap, d), |s.fates|;
      assert MarkerOk(s.resv, x, s.mem[x]);
      if s.mem[x].raw == 8 * d + 1 {
        var i := s.mem[x].rec;
        ResvShape(s.cap, s.resv, s.enq, i);
        if i < k { TilesAscend(s.cap, s.resv, s.enq, i, k); }
        if k < i { TilesAscend(s.cap, s.resv, s.enq, k, i); Front(s); }
      }
    }
  }

  lemma GlanceKeeps(s: State, timeUp: bool)
    requires Inv(s) && NoAlias(s, Consume(timeUp)) && !s.con.Advance? && !s.con.Skip?
    ensures Inv(s.(con := Glance(s, timeUp)))
  {
    if s.con.Copy? { CopyStays(s, s.con.d, s.con.total, s.con.words, timeUp); }
    else if s.con.ReadLen? || s.con.ReadFlags? { HeaderStays(s, timeUp); }
    else if s.con.ReadMark? { MarkStays(s, s.con.d, timeUp); }
  }

  lemma PassProducer(s: State)
    requires Inv(s) && |s.fates| < |s.resv| && s.resv[|s.fates|].phase == Published
    ensures ProdOk(s.cap, s.enq, s.deq + s.resv[|s.fates|].len, s.resv, |s.fates| + 1, s.prod)
  {
    Front(s);
  }

  lemma TakeKeeps(s: State, d: nat, total: nat, words: seq<nat>)
    requires Inv(s) && s.con == Advance(d, total, words) && s.deq == d
    ensures Inv(s.(con := Done(Some(d)), deq := d + total, fates := s.fates + [Taken],
                   delivered := s.delivered + [Delivery(d, words)]))
  {
    var v := Delivery(d, words);
    var t := s.(con := Done(Some(d)), deq := d + total, fates := s.fates + [Taken], delivered := s.delivered + [v]);
    PassCursors(s);
    PassProducer(s);
    assert Passed(t) by {
      HandedMore(s.delivered, s.resv, s.fates, Taken, |s.fates|);
      StolenOne(s.resv, s.fates, Taken, |s.fates|);
      assert t.delivered[..|s.delivered|] == s.delivered;
    }
  }

  lemma SkipKeeps(s: State, d: nat, total: nat)
    requires Inv(s) && s.con == Skip(d, total) && s.deq == d
    ensures Inv(s.(con := ReadDeq, deq := d + total, fates := s.fates + [Skipped]))
  {
    var t := s.(con := ReadDeq, deq := d + total, fates := s.fates + [Skipped]);
    PassCursors(s);
    PassProducer(s);
    assert Passed(t) by {
      HandedMore(s.delivered, s.resv, s.fates, Skipped, |s.fates|);
      StolenOne(s.resv, s.fates, Skipped, |s.fates|);
    }
  }

  lemma ConsumerKeeps(s: State, timeUp: bool)
    requires Inv(s) && NoAlias(s, Consume(timeUp))
    ensures Inv(Consumed(s, timeUp))
  {
    if s.con.Advance? {
      if s.deq == s.con.d { TakeKeeps(s, s.con.d, s.con.total, s.con.words); }
    } else if s.con.Skip? {
      if s.deq == s.con.d { SkipKeeps(s, s.con.d, s.con.total); }
    } else {
      GlanceKeeps(s, timeUp);
    }
  }

  lemma NextKeeps(s: State, a: Action, t: State)
    requires Inv(s) && Next(s, a, t) && NoAlias(s, a)
    ensures Inv(t)
  {
    match a
    case Put(m) => MoveProducer(s, TestClosed(m));
    case Produce => ProducerKeeps(s);
    case Consume(timeUp) => ConsumerKeeps(s, timeUp);
    case _ =>
  }

  lemma {:induction false} RunKeeps(tr: seq<State>, acts: seq<Action>, t: nat)
    requires Run(tr, acts) && Unaliased(tr, acts) && t < |tr|
    ensures Inv(tr[t])
  {
    if t > 0 {
      RunKeeps(tr, acts, t - 1);
      NextKeeps(tr[t - 1], acts[t - 1], tr[t]);
    }
  }
}
