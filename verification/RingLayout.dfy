/** The record layout shared by the lock-free rings, counted in 8-byte words.

    Every position and length the ring code handles is a multiple of 8, so the byte
    position `8 * pos` of the code is `pos` here and the 56-byte header is seven words:
    0 commit, 1 tid, 2 realtime, 3 mono, 4 total_len and msg_len, 5 line and level_flags,
    6 the three string lengths and field_count. */
module RingLayout {
  import opened Options

  const HEADER: nat := 7
  const TWO32: nat := 0x1_0000_0000
  const PAD_FLAG_WORD: nat := 0x100_0000_0000  // word 5 with flag byte 0x01 in level_flags

  /** A memory word. `Commit` marks a word last written through the atomic commit field;
      `rec` says for which entry of the reservation log. Only `raw` exists at run time. */
  datatype Word = Plain(raw: nat) | Commit(raw: nat, rec: nat)

  /** What one put call wants stored: header values and the payload words. */
  datatype Msg = Msg(tid: nat, realtime: nat, mono: nat, msgLen: nat, line: nat,
                     level: nat, lens: nat, payload: seq<nat>)

  function RecordLen(m: Msg): nat { HEADER + |m.payload| }

  /** The caller's contract: capacity is at least twice the largest record. */
  predicate MsgOk(cap: nat, m: Msg) {
    2 * RecordLen(m) <= cap && m.line < TWO32 && m.level < 256
  }

  /** Words 1, 2, ... that the producer writes for a record (None is a pad) of `len` words. */
  function Image(m: Option<Msg>, len: nat): seq<nat> {
    match m
    case None => [0, 0, 0, 8 * len, PAD_FLAG_WORD, 0]
    case Some(x) => [x.tid, x.realtime, x.mono, 8 * len + TWO32 * x.msgLen,
                     x.line + TWO32 * x.level, x.lens] + x.payload
  }

  function TotalLen(raw: nat): nat { raw % TWO32 }

  predicate PadFlag(raw: nat) { raw / PAD_FLAG_WORD % 2 == 1 }

  lemma HeaderReadsBack(cap: nat, m: Option<Msg>, len: nat)
    requires m.Some? ==> MsgOk(cap, m.value)
    requires 8 * len < TWO32
    ensures |Image(m, len)| >= 6
    ensures TotalLen(Image(m, len)[3]) == 8 * len
    ensures PadFlag(Image(m, len)[4]) <==> m.None?
  {
    if m.Some? {
      var x := m.value;
      assert (x.line + TWO32 * x.level) / PAD_FLAG_WORD == 0;
    }
  }

  /** Who may touch a reserved range: its producer has written words below `n`
      (word 0 being the invalidated commit word), or it is published, or a consumer
      claimed it. A claimed record stays `Leased` in the log after it was consumed. */
  datatype Phase = Writing(n: nat) | Published | Leased(reader: nat)

  /** One successful advance of the reservation cursor; `words` is what its producer writes. */
  datatype Resv = Resv(pos: nat, off: nat, len: nat, msg: Option<Msg>, words: seq<nat>, owner: nat,
                       phase: Phase, kicked: bool)

  function End(r: Resv): nat { r.pos + r.len }

  /** The physical word a position maps to; `OffIsRemainder` ties it to `pos % cap`. */
  function Off(cap: nat, pos: nat): (o: nat)
    requires cap > 0
    ensures o < cap
  {
    if pos < cap then pos else Off(cap, pos - cap)
  }

  lemma {:induction false} OffIsRemainder(cap: nat, pos: nat)
    requires cap > 0
    ensures Off(cap, pos) == pos % cap
  {
    var q := OffQuotient(cap, pos);
    RemainderUnique(cap, pos, q, Off(cap, pos));
  }

  lemma {:induction false} OffQuotient(cap: nat, pos: nat) returns (q: nat)
    requires cap > 0
    ensures pos == q * cap + Off(cap, pos)
  {
    if pos < cap {
      q := 0;
    } else {
      var q' := OffQuotient(cap, pos - cap);
      q := q' + 1;
    }
  }

  lemma RemainderUnique(cap: nat, x: nat, q: nat, o: nat)
    requires o < cap && x == q * cap + o
    ensures x % cap == o
  {
    var d := q - x / cap;
    assert d * cap == x % cap - o;
    MultipleGap(d, cap);
  }

  lemma MultipleGap(d: int, cap: int)
    requires cap > 0
    ensures d > 0 ==> d * cap >= cap
    ensures d < 0 ==> d * cap <= 0 - cap
  {
  }

  /** A record never crosses the boundary, and leaves either nothing or room for a
      header in front of it. */
  predicate Placed(cap: nat, off: nat, len: nat) {
    HEADER <= len && off + len <= cap && (off + len == cap || off + len + HEADER <= cap)
  }

  predicate ResvOk(cap: nat, r: Resv)
    requires cap > 0
  {
    && r.off == Off(cap, r.pos) && r.words == Image(r.msg, r.len)
    && Placed(cap, r.off, r.len)
    && (r.msg.None? ==> r.off + r.len == cap)
    && (r.msg.Some? ==> MsgOk(cap, r.msg.value) && RecordLen(r.msg.value) <= r.len)
  }

  predicate CapOk(cap: nat) { 2 * HEADER <= cap && 8 * cap < TWO32 }

  /** The reservations tile [0, enq). */
  ghost predicate Tiled(cap: nat, resv: seq<Resv>, enq: nat)
    requires cap > 0
  {
    && (forall i {:trigger ResvOk(cap, resv[i])} | 0 <= i < |resv| :: ResvOk(cap, resv[i]))
    && (forall i {:trigger EndOf(resv, i)} | 0 <= i < |resv| :: resv[i].pos == EndOf(resv, i))
    && enq == EndOf(resv, |resv|)
  }

  function EndOf(resv: seq<Resv>, i: nat): nat
    requires i <= |resv|
  {
    if i == 0 then 0 else End(resv[i - 1])
  }

  lemma {:induction false} TilesAscend(cap: nat, resv: seq<Resv>, enq: nat, i: nat, j: nat)
    requires cap > 0 && Tiled(cap, resv, enq)
    requires i < j <= |resv|
    ensures End(resv[i]) <= EndOf(resv, j)
    decreases j
  {
    if i + 1 < j {
      TilesAscend(cap, resv, enq, i, j - 1);
      assert resv[j - 1].pos == EndOf(resv, j - 1);
    }
  }

  /** Every place a record can start is the boundary or leaves room for a pad header. */
  predicate StartFits(cap: nat, pos: nat)
    requires cap > 0
  {
    Off(cap, pos) == 0 || Off(cap, pos) + HEADER <= cap
  }

  lemma {:induction false} OffStep(cap: nat, pos: nat, len: nat)
    requires cap > 0 && Off(cap, pos) + len <= cap
    ensures Off(cap, pos + len) == if Off(cap, pos) + len == cap then 0 else Off(cap, pos) + len
  {
    if pos >= cap { OffStep(cap, pos - cap, len); }
  }

  lemma StartsFit(cap: nat, resv: seq<Resv>, enq: nat)
    requires cap >= HEADER && Tiled(cap, resv, enq)
    ensures StartFits(cap, enq)
  {
    if |resv| > 0 {
      var r := resv[|resv| - 1];
      assert ResvOk(cap, r);
      OffStep(cap, r.pos, r.len);
    }
  }

  /** Two ranges inside one window of `cap` words never share a physical word. */
  lemma {:induction false} WindowDisjoint(cap: nat, a: nat, n: nat, b: nat, m: nat)
    requires cap > 0 && a + n <= b && b + m <= a + cap && n > 0 && m > 0
    requires Off(cap, a) + n <= cap && Off(cap, b) + m <= cap
    ensures Off(cap, a) + n <= Off(cap, b) || Off(cap, b) + m <= Off(cap, a)
    decreases a
  {
    if a >= cap { WindowDisjoint(cap, a - cap, n, b - cap, m); }
  }

  ghost predicate Apart(r: Resv, t: Resv) {
    r.off + r.len <= t.off || t.off + t.len <= r.off
  }

  lemma ResvShape(cap: nat, resv: seq<Resv>, enq: nat, i: nat)
    requires cap > 0 && Tiled(cap, resv, enq) && i < |resv|
    ensures resv[i].off == Off(cap, resv[i].pos) && Placed(cap, resv[i].off, resv[i].len)
    ensures |resv[i].words| < resv[i].len
    ensures resv[i].pos == EndOf(resv, i)
  {
    assert ResvOk(cap, resv[i]);
    assert resv[i].pos == EndOf(resv, i);
  }

  /** Live reservations, those of a window [deq, enq) of at most `cap` words, are
      physically apart from one another. */
  lemma LiveApart(cap: nat, resv: seq<Resv>, enq: nat, k: nat, i: nat, j: nat)
    requires cap > 0 && Tiled(cap, resv, enq)
    requires k <= i < |resv| && k <= j < |resv| && i != j
    requires enq <= resv[k].pos + cap
    ensures Apart(resv[i], resv[j])
  {
    var lo, hi := if i < j then i else j, if i < j then j else i;
    ResvShape(cap, resv, enq, lo);
    ResvShape(cap, resv, enq, hi);
    TilesAscend(cap, resv, enq, lo, hi);
    TilesAscend(cap, resv, enq, hi, |resv|);
    if k < lo { TilesAscend(cap, resv, enq, k, lo); }
    WindowDisjoint(cap, resv[lo].pos, resv[lo].len, resv[hi].pos, resv[hi].len);
  }

  /** The indices below `k` of records that are not pads, in reservation order. */
  function NonPads(resv: seq<Resv>, k: nat): seq<nat>
    requires k <= |resv|
  {
    if k == 0 then [] else NonPads(resv, k - 1) + if resv[k - 1].msg.Some? then [k - 1] else []
  }

  // ---------------------------------------------------------------- changes to the log

  lemma TiledExtend(cap: nat, resv: seq<Resv>, enq: nat, r: Resv)
    requires cap > 0 && Tiled(cap, resv, enq) && ResvOk(cap, r) && r.pos == enq
    ensures Tiled(cap, resv + [r], enq + r.len)
    ensures forall i | 0 <= i <= |resv| :: EndOf(resv + [r], i) == EndOf(resv, i)
  {
    var resv' := resv + [r];
    forall i | 0 <= i < |resv'| ensures resv'[i].pos == EndOf(resv', i) && EndOf(resv', i) == EndOf(resv, i) {
      assert EndOf(resv, i) == EndOf(resv', i);
    }
    assert EndOf(resv', |resv'|) == enq + r.len;
  }

  lemma ResvRelabel(cap: nat, r: Resv, ph: Phase, kicked: bool)
    requires cap > 0 && ResvOk(cap, r)
    ensures ResvOk(cap, r.(phase := ph, kicked := kicked))
  {
  }

  ghost predicate Relabels(resv: seq<Resv>, resv': seq<Resv>) {
    && |resv'| == |resv|
    && forall j | 0 <= j < |resv| :: resv'[j] == resv[j].(phase := resv'[j].phase, kicked := resv'[j].kicked)
  }

  lemma EndsRelabel(resv: seq<Resv>, resv': seq<Resv>, j: nat)
    requires Relabels(resv, resv') && j <= |resv|
    ensures EndOf(resv', j) == EndOf(resv, j)
  {
  }

  lemma TiledRelabel(cap: nat, resv: seq<Resv>, resv': seq<Resv>, enq: nat)
    requires cap > 0 && Tiled(cap, resv, enq) && Relabels(resv, resv')
    ensures Tiled(cap, resv', enq)
  {
    forall j | 0 <= j < |resv| ensures ResvOk(cap, resv'[j]) {
      assert ResvOk(cap, resv[j]);
      ResvRelabel(cap, resv[j], resv'[j].phase, resv'[j].kicked);
    }
    forall j | 0 <= j < |resv| ensures resv'[j].pos == EndOf(resv', j) {
      EndsRelabel(resv, resv', j);
    }
    EndsRelabel(resv, resv', |resv|);
  }

  // ---------------------------------------------------------------- memory

  function Load(mem: seq<Word>, x: nat): Word {
    if x < |mem| then mem[x] else Plain(0)
  }

  function Poke(mem: seq<Word>, x: nat, w: Word): seq<Word> {
    if x < |mem| then mem[x := w] else mem
  }

  function SetPhase(resv: seq<Resv>, i: nat, ph: Phase): seq<Resv> {
    if i < |resv| then resv[i := resv[i].(phase := ph)] else resv
  }

  // ---------------------------------------------------------------- what put decides

  /** What put decided to reserve after reading enq. `total` survives lost races. */
  datatype Plan = Plan(m: Msg, total: nat, pos: nat, len: nat, pad: bool)

  function PlanAt(cap: nat, m: Msg, total: nat, pos: nat): Plan
    requires cap > 0
  {
    var off := Off(cap, pos);
    if off + total > cap then Plan(m, total, pos, cap - off, true)
    else if off + total + HEADER > cap then Plan(m, cap - off, pos, cap - off, false)
    else Plan(m, total, pos, total, false)
  }

  /** The words a record of `len` takes at position `pos`: its length, or all the words up to
      the boundary when it does not fit in front of it or no header would fit behind it. */
  function Takes(cap: nat, len: nat, pos: nat): nat
    requires cap > 0
  {
    var off := Off(cap, pos);
    if off + len + HEADER > cap then cap - off else len
  }

  function Content(pl: Plan): Option<Msg> { if pl.pad then None else Some(pl.m) }

  function Reservation(cap: nat, p: nat, pl: Plan, n: nat): Resv
    requires cap > 0
  {
    Resv(pl.pos, Off(cap, pl.pos), pl.len, Content(pl), Image(Content(pl), pl.len), p, Writing(n), false)
  }

  ghost predicate PlanShape(cap: nat, pl: Plan)
    requires cap > 0
  {
    && StartFits(cap, pl.pos) && MsgOk(cap, pl.m)
    && RecordLen(pl.m) <= pl.total <= cap
    && Placed(cap, Off(cap, pl.pos), pl.len)
    && (if pl.pad then Off(cap, pl.pos) + pl.len == cap else pl.len == pl.total)
  }

  lemma PlanFits(cap: nat, m: Msg, total: nat, pos: nat)
    requires CapOk(cap) && StartFits(cap, pos) && MsgOk(cap, m) && RecordLen(m) <= total <= cap
    ensures PlanShape(cap, PlanAt(cap, m, total, pos))
  {
  }

  // ---------------------------------------------------------------- what get copies

  /** A prefix of the record as copied so far; words past the message are unspecified. */
  ghost predicate Staged(words: seq<nat>, r: Resv) {
    && |words| <= r.len
    && forall j | 1 <= j < |words| && j <= |r.words| :: words[j] == r.words[j - 1]
  }

  /** The words carry the message: a get reader finds every header and payload word of it. */
  ghost predicate Carries(words: seq<nat>, m: Msg) {
    && RecordLen(m) <= |words|
    && TotalLen(words[4]) == 8 * |words|
    && forall j | 1 <= j < RecordLen(m) :: words[j] == Image(Some(m), |words|)[j - 1]
  }

  lemma StagedCarries(cap: nat, words: seq<nat>, r: Resv)
    requires CapOk(cap) && ResvOk(cap, r) && r.msg.Some? && |words| == r.len && Staged(words, r)
    ensures Carries(words, r.msg.value)
  {
    HeaderReadsBack(cap, r.msg, r.len);
  }
}
