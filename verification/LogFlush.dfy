/** The flush handshake over a ring that may discard its oldest records: the ring is the log
    of everything enqueued and of how records left it at the front. Each ring operation is
    atomic on the log; `LockedFlush` and `OverwriteFlush` tie the locked ring and the SPSC
    ring to it. */
module LogFlush {
  import opened ConsumerFlush

  /** How a record left the ring: a consumer thread took it, it was a pad, or it was
      overwritten. */
  datatype Fate = Taken(c: nat) | Skipped | Lost

  /** `log[i]` tells whether entry i is a message or a pad, and `fates` how the first
      |fates| entries left. The other parts are those of `ConsumerFlush.Sys`; a record is
      named by its place in the log, and `UsedHead` holds the length of the log. */
  datatype Shared = Shared(
    log: seq<bool>, fates: seq<Fate>, n: nat, loops: map<nat, Loop>, leaving: set<nat>,
    flushers: map<nat, Flusher>, req: nat, acks: map<nat, nat>, marks: seq<nat>, processed: set<nat>)

  datatype Event =
    | Enqueue(adds: seq<bool>, drops: nat)
    | Dequeue(c: nat, pads: nat, found: bool, done: bool)
    | Thread(c: nat, branch: bool)
    | Call(f: nat)
    | Poll(f: nat, timeUp: bool)

  ghost predicate Start(s: Shared) {
    && s.log == [] && s.fates == [] && s.leaving == {} && s.req == 0 && s.marks == [] && s.processed == {}
    && (forall c: nat :: c in s.loops <==> c < s.n) && (forall c | c in s.loops :: s.loops[c] == Top)
    && (forall c: nat :: c in s.acks <==> c < s.n) && (forall c | c in s.acks :: s.acks[c] == 0)
    && (forall f | f in s.flushers :: s.flushers[f] == Resting)
  }

  function To(s: Shared, c: nat, st: Loop): Shared { s.(loops := s.loops[c := st]) }

  function ToF(s: Shared, f: nat, st: Flusher): Shared { s.(flushers := s.flushers[f := st]) }

  /** The fates of entries that leave without a consumer: lost messages and skipped pads. */
  function FatesLeft(entries: seq<bool>): (fates: seq<Fate>)
    ensures |fates| == |entries|
    ensures forall i | 0 <= i < |entries| :: fates[i] == if entries[i] then Lost else Skipped
  {
    if entries == [] then [] else [if entries[0] then Lost else Skipped] + FatesLeft(entries[1..])
  }

  function Back(s: Shared, c: nat): Loop { if c in s.leaving then Stopped else Top }

  /** One step of consumer_loop outside get, as in `ConsumerFlush.Looped`. */
  function Stepped(s: Shared, c: nat, branch: bool): Shared
    requires c in s.loops
  {
    match s.loops[c]
    case Top =>
      if branch && c !in s.leaving then s.(leaving := s.leaving + {c}) else To(s, c, InGet)
    case InGet => s
    case Hand(i) => To(s, c, AfterRecord).(processed := s.processed + {i})
    case AfterRecord => To(s, c, if branch && c !in s.leaving then ReadRequest else Top)
    case ReadRequest => To(s, c, if branch then Back(s, c) else UsedTail(s.req))
    case UsedTail(r) => To(s, c, UsedHead(r, |s.log|))
    case UsedHead(r, e) => To(s, c, if e == |s.fates| then Ack(r) else Back(s, c))
    case Ack(r) => To(s, c, Back(s, c)).(acks := s.acks[c := r])
    case Stopped => s
  }

  function Polled(s: Shared, f: nat, timeUp: bool): Shared
    requires f in s.flushers
  {
    match s.flushers[f]
    case WaitTail(k) => ToF(s, f, WaitHead(k, |s.log|))
    case WaitHead(k, e) =>
      ToF(s, f, if e == |s.fates| then WaitAcks(k, 0) else if timeUp then Resting else WaitTail(k))
    case WaitAcks(k, x) =>
      if x >= s.n then ToF(s, f, Flushed(k))
      else if x in s.acks && s.acks[x] >= k then ToF(s, f, WaitAcks(k, x + 1))
      else ToF(s, f, if timeUp then Resting else WaitTail(k))
    case _ => s
  }

  /** One event. A put appends entries and drops some at the front; a get skips pads and
      then hands out a message, or finds none and returns or goes on. */
  ghost predicate Happens(s: Shared, a: Event, t: Shared) {
    match a
    case Enqueue(adds, drops) =>
      && |s.fates| + drops <= |s.log|
      && t == s.(log := s.log + adds, fates := s.fates + FatesLeft(s.log[|s.fates|..|s.fates| + drops]))
    case Dequeue(c, pads, found, done) =>
      var k := |s.fates| + pads;
      && c in s.loops && s.loops[c].InGet? && k <= |s.log| && (forall i | |s.fates| <= i < k :: !s.log[i])
      && (found ==> k < |s.log| && s.log[k])
      && t == To(s, c, if found then Hand(k) else if done then ReadRequest else InGet)
              .(fates := s.fates + FatesLeft(s.log[|s.fates|..k]) + if found then [Taken(c)] else [])
    case Thread(c, branch) => c in s.loops && t == Stepped(s, c, branch)
    case Call(f) =>
      f in s.flushers && (s.flushers[f].Resting? || s.flushers[f].Flushed?)
      && t == ToF(s, f, WaitTail(s.req + 1)).(req := s.req + 1, marks := s.marks + [|s.log|])
    case Poll(f, timeUp) => f in s.flushers && t == Polled(s, f, timeUp)
  }

  ghost predicate History(tr: seq<Shared>, acts: seq<Event>) {
    && |tr| == |acts| + 1 && Start(tr[0])
    && forall t | 0 <= t < |acts| :: Happens(tr[t], acts[t], tr[t + 1])
  }

  // ---------------------------------------------------------------- the invariant

  /** Each taken message is processed or in the hand of the thread that took it; only pads
      are skipped. */
  ghost predicate Served(log: seq<bool>, fates: seq<Fate>, n: nat, loops: map<nat, Loop>, processed: set<nat>) {
    && |fates| <= |log|
    && forall i {:trigger fates[i]} | 0 <= i < |fates| :: ServedAt(i, log[i], fates[i], n, loops, processed)
  }

  predicate ServedAt(i: nat, msg: bool, fate: Fate, n: nat, loops: map<nat, Loop>, processed: set<nat>) {
    match fate
    case Taken(c) => c < n && c in loops && (i in processed || loops[c] == Hand(i))
    case Skipped => !msg
    case Lost => true
  }

  /** All of the first m entries have left, and thread c has processed what it took of them. */
  predicate Cleared(fates: seq<Fate>, processed: set<nat>, c: nat, m: nat) {
    m <= |fates| && forall i | 0 <= i < m && fates[i] == Taken(c) :: i in processed
  }

  predicate ClearedAt(s: Shared, c: nat, ticket: nat) {
    ticket <= |s.marks| && (ticket > 0 ==> Cleared(s.fates, s.processed, c, s.marks[ticket - 1]))
  }

  predicate Marked(marks: seq<nat>, req: nat, entries: nat) {
    && |marks| == req
    && (forall x | 0 <= x < |marks| :: marks[x] <= entries)
    && (forall x, y | 0 <= x <= y < |marks| :: marks[x] <= marks[y])
  }

  ghost predicate ThreadOk(s: Shared, c: nat, st: Loop) {
    match st
    case UsedTail(r) => r <= |s.marks|
    case UsedHead(r, e) => r <= |s.marks| && (r > 0 ==> s.marks[r - 1] <= e)
    case Ack(r) => ClearedAt(s, c, r)
    case _ => true
  }

  ghost predicate CallerOk(s: Shared, st: Flusher) {
    match st
    case WaitTail(ticket) => 0 < ticket <= |s.marks|
    case WaitHead(ticket, _) => 0 < ticket <= |s.marks|
    case WaitAcks(ticket, x) => 0 < ticket <= |s.marks| && forall c | 0 <= c < x :: ClearedAt(s, c, ticket)
    case Flushed(ticket) => 0 < ticket <= |s.marks| && forall c | 0 <= c < s.n :: ClearedAt(s, c, ticket)
    case Resting => true
  }

  ghost predicate Threads(s: Shared) {
    && (forall c: nat :: c in s.loops <==> c < s.n) && (forall c: nat :: c in s.acks <==> c < s.n)
    && (forall c {:trigger ThreadOk(s, c, s.loops[c])} | c in s.loops :: ThreadOk(s, c, s.loops[c]))
    && (forall c {:trigger ClearedAt(s, c, s.acks[c])} | c in s.acks :: ClearedAt(s, c, s.acks[c]))
    && (forall f {:trigger CallerOk(s, s.flushers[f])} | f in s.flushers :: CallerOk(s, s.flushers[f]))
  }

  ghost predicate Kept(s: Shared) {
    && Served(s.log, s.fates, s.n, s.loops, s.processed) && Marked(s.marks, s.req, |s.log|) && Threads(s)
  }

  // ---------------------------------------------------------------- what only grows

  predicate Grew(s: Shared, t: Shared) {
    && s.n == t.n && s.log <= t.log && s.fates <= t.fates && s.marks <= t.marks && s.processed <= t.processed
  }

  lemma ClearedStays(s: Shared, t: Shared, c: nat, ticket: nat)
    requires Grew(s, t) && ClearedAt(s, c, ticket)
    ensures ClearedAt(t, c, ticket)
  {
  }

  lemma ThreadStays(s: Shared, t: Shared, c: nat, st: Loop)
    requires Grew(s, t) && ThreadOk(s, c, st)
    ensures ThreadOk(t, c, st)
  {
    if st.Ack? { ClearedStays(s, t, c, st.r); }
  }

  lemma CallerStays(s: Shared, t: Shared, st: Flusher)
    requires Grew(s, t) && CallerOk(s, st)
    ensures CallerOk(t, st)
  {
    hide ClearedAt, Grew;
    forall c, ticket | ClearedAt(s, c, ticket) ensures ClearedAt(t, c, ticket) { ClearedStays(s, t, c, ticket); }
    assert Sizes(s, t) by { GrewSizes(s, t); }
  }

  predicate Sizes(s: Shared, t: Shared) { s.n == t.n && |s.marks| <= |t.marks| }

  lemma GrewSizes(s: Shared, t: Shared)
    requires Grew(s, t)
    ensures Sizes(s, t)
  {
  }

  /** All threads but c, and all flushers but f, go on as they were. */
  lemma OthersStay(s: Shared, t: Shared, c: int, f: int)
    requires Threads(s) && Grew(s, t)
    requires t.loops.Keys == s.loops.Keys && t.acks.Keys == s.acks.Keys
    requires forall x | x in t.loops && x != c :: t.loops[x] == s.loops[x]
    requires forall x | x in t.acks && x != c :: t.acks[x] == s.acks[x]
    requires forall x | x in t.flushers && x != f :: x in s.flushers && t.flushers[x] == s.flushers[x]
    requires c in t.loops ==> ThreadOk(t, c, t.loops[c])
    requires c in t.acks ==> ClearedAt(t, c, t.acks[c])
    requires f in t.flushers ==> CallerOk(t, t.flushers[f])
    ensures Threads(t)
  {
    GrewSizes(s, t);
    hide Grew, ThreadOk, ClearedAt, CallerOk;
    forall x | x in t.loops ensures ThreadOk(t, x, t.loops[x]) {
      if x != c { ThreadStays(s, t, x, s.loops[x]); }
    }
    forall x | x in t.acks ensures ClearedAt(t, x, t.acks[x]) {
      if x != c { ClearedStays(s, t, x, s.acks[x]); }
    }
    forall x | x in t.flushers ensures CallerOk(t, t.flushers[x]) {
      if x != f { CallerStays(s, t, s.flushers[x]); }
    }
  }

  /** Thread c moves on, and may have put down what it had in hand. */
  lemma ThreadMoves(s: Shared, t: Shared, c: nat)
    requires Kept(s) && c in s.loops && c in t.loops && t.loops == s.loops[c := t.loops[c]]
    requires t == s.(loops := t.loops, leaving := t.leaving, acks := t.acks, processed := t.processed)
    requires s.processed <= t.processed && ThreadOk(t, c, t.loops[c])
    requires s.loops[c].Hand? ==> s.loops[c].pos in t.processed
    requires c in t.acks && t.acks == s.acks[c := t.acks[c]] && ClearedAt(t, c, t.acks[c])
    ensures Kept(t)
  {
    assert Served(t.log, t.fates, t.n, t.loops, t.processed);
    hide Served, Marked;
    assert Grew(s, t);
    OthersStay(s, t, c, -1);
  }

  /** Seeing the log exhausted at a length read after request r clears thread c for r, when
      its hand is empty. */
  lemma EmptyLogClears(s: Shared, c: nat, r: nat, e: nat)
    requires Kept(s) && c in s.loops && s.loops[c] == UsedHead(r, e) && e == |s.fates|
    ensures ClearedAt(s, c, r)
  {
    assert ThreadOk(s, c, s.loops[c]);
    if r > 0 {
      forall i | 0 <= i < s.marks[r - 1] && s.fates[i] == Taken(c) ensures i in s.processed {
        assert ServedAt(i, s.log[i], s.fates[i], s.n, s.loops, s.processed);
      }
    }
  }

  lemma StepKeeps(s: Shared, c: nat, branch: bool)
    requires Kept(s) && c in s.loops
    ensures Kept(Stepped(s, c, branch))
  {
    var t := Stepped(s, c, branch);
    assert ThreadOk(s, c, s.loops[c]) && ClearedAt(s, c, s.acks[c]);
    assert s.loops == s.loops[c := s.loops[c]] && s.acks == s.acks[c := s.acks[c]];
    if s.loops[c].UsedHead? && s.loops[c].e == |s.fates| { EmptyLogClears(s, c, s.loops[c].r, s.loops[c].e); }
    assert Grew(s, t) && c in t.loops && c in t.acks;
    ClearedStays(s, t, c, s.acks[c]);
    if s.loops[c].UsedHead? && s.loops[c].e == |s.fates| { ClearedStays(s, t, c, s.loops[c].r); }
    if s.loops[c].Ack? { ClearedStays(s, t, c, s.loops[c].r); }
    if !s.loops[c].InGet? && !s.loops[c].Stopped? { ThreadMoves(s, t, c); }
  }

  lemma LaterClears(s: Shared, c: nat, ticket: nat, later: nat)
    requires Kept(s) && 0 < ticket <= later && ClearedAt(s, c, later)
    ensures ClearedAt(s, c, ticket)
  {
  }

  lemma FlusherMoves(s: Shared, f: nat, st: Flusher)
    requires Kept(s) && f in s.flushers && CallerOk(s, st)
    ensures Kept(ToF(s, f, st))
  {
    var t := ToF(s, f, st);
    hide Served, Marked;
    assert Grew(s, t);
    CallerStays(s, t, st);
    OthersStay(s, t, -1, f);
  }

  lemma PollKeeps(s: Shared, f: nat, timeUp: bool)
    requires Kept(s) && f in s.flushers
    ensures Kept(Polled(s, f, timeUp))
  {
    var st := s.flushers[f];
    assert CallerOk(s, st);
    if st.WaitAcks? && st.next < s.n && s.acks[st.next] >= st.ticket {
      assert ClearedAt(s, st.next, s.acks[st.next]);
      LaterClears(s, st.next, st.ticket, s.acks[st.next]);
    }
    if !st.Resting? && !st.Flushed? { FlusherMoves(s, f, Polled(s, f, timeUp).flushers[f]); }
  }

  lemma CallKeeps(s: Shared, f: nat)
    requires Kept(s) && f in s.flushers
    ensures Kept(ToF(s, f, WaitTail(s.req + 1)).(req := s.req + 1, marks := s.marks + [|s.log|]))
  {
    var t := ToF(s, f, WaitTail(s.req + 1)).(req := s.req + 1, marks := s.marks + [|s.log|]);
    assert Grew(s, t) && Marked(t.marks, t.req, |t.log|);
    hide Served, Marked;
    OthersStay(s, t, -1, f);
  }

  /** Entries that leave without a consumer are lost messages or skipped pads. */
  lemma DroppedServed(s: Shared, log: seq<bool>, m: nat, loops: map<nat, Loop>)
    requires Served(s.log, s.fates, s.n, s.loops, s.processed) && s.log <= log && |s.fates| <= m <= |s.log|
    requires forall c | c in s.loops :: c in loops && (s.loops[c].Hand? ==> loops[c] == s.loops[c])
    ensures Served(log, s.fates + FatesLeft(s.log[|s.fates|..m]), s.n, loops, s.processed)
  {
    var k, gone := |s.fates|, FatesLeft(s.log[|s.fates|..m]);
    forall i | 0 <= i < m ensures ServedAt(i, log[i], (s.fates + gone)[i], s.n, loops, s.processed) {
      if i < k {
        assert ServedAt(i, s.log[i], s.fates[i], s.n, s.loops, s.processed);
      } else {
        assert gone[i - k] == if log[i] then Lost else Skipped by { assert s.log[k..m][i - k] == log[i]; }
        assert (s.fates + gone)[i] == gone[i - k];
      }
    }
  }

  lemma EnqueueKeeps(s: Shared, adds: seq<bool>, drops: nat)
    requires Kept(s) && |s.fates| + drops <= |s.log|
    ensures Kept(s.(log := s.log + adds, fates := s.fates + FatesLeft(s.log[|s.fates|..|s.fates| + drops])))
  {
    var t := s.(log := s.log + adds, fates := s.fates + FatesLeft(s.log[|s.fates|..|s.fates| + drops]));
    DroppedServed(s, t.log, |s.fates| + drops, s.loops);
    assert Grew(s, t) && Marked(t.marks, t.req, |t.log|);
    hide Served, Marked;
    OthersStay(s, t, -1, -1);
  }

  lemma DequeueKeeps(s: Shared, c: nat, pads: nat, found: bool, done: bool, t: Shared)
    requires Kept(s) && Happens(s, Dequeue(c, pads, found, done), t)
    ensures Kept(t)
  {
    var k := |s.fates| + pads;
    DroppedServed(s, s.log, k, t.loops);
    if found { TakenServed(s, t, k, c); }
    assert Grew(s, t);
    assert ClearedAt(s, c, s.acks[c]);
    ClearedStays(s, t, c, s.acks[c]);
    hide Served, Marked;
    OthersStay(s, t, c, -1);
  }

  lemma TakenServed(s: Shared, t: Shared, k: nat, c: nat)
    requires |t.fates| == k + 1 <= |t.log| && t.fates[k] == Taken(c) && t.log[k]
    requires c < t.n && c in t.loops && t.loops[c] == Hand(k)
    requires Served(t.log, t.fates[..k], t.n, t.loops, t.processed)
    ensures Served(t.log, t.fates, t.n, t.loops, t.processed)
  {
    forall i | 0 <= i < |t.fates| ensures ServedAt(i, t.log[i], t.fates[i], t.n, t.loops, t.processed) {
      if i < k { assert ServedAt(i, t.log[i], t.fates[..k][i], t.n, t.loops, t.processed); }
    }
  }

  lemma HappensKeeps(s: Shared, a: Event, t: Shared)
    requires Kept(s) && Happens(s, a, t)
    ensures Kept(t)
  {
    hide Kept;
    match a
    case Enqueue(adds, drops) => EnqueueKeeps(s, adds, drops);
    case Dequeue(c, pads, found, done) => DequeueKeeps(s, c, pads, found, done, t);
    case Thread(c, branch) => StepKeeps(s, c, branch);
    case Call(f) => CallKeeps(s, f);
    case Poll(f, timeUp) => PollKeeps(s, f, timeUp);
  }

  lemma StartKept(s: Shared)
    requires Start(s)
    ensures Kept(s)
  {
  }

  lemma {:induction false} HistoryKeeps(tr: seq<Shared>, acts: seq<Event>, t: nat)
    requires History(tr, acts) && t < |tr|
    ensures Kept(tr[t])
  {
    if t > 0 {
      hide Kept, Happens;
      HistoryKeeps(tr, acts, t - 1);
      HappensKeeps(tr[t - 1], acts[t - 1], tr[t]);
    }
  }

  // ---------------------------------------------------------------- the theorem

  /** Main result: when flush has returned 0, every entry enqueued before its request has
      left the ring, and if it is a message it was processed or overwritten. */
  lemma FlushCertifies(tr: seq<Shared>, acts: seq<Event>, t: nat, f: nat)
    requires History(tr, acts) && t < |tr|
    requires f in tr[t].flushers && tr[t].flushers[f].Flushed? && tr[t].n > 0
    ensures var s := tr[t]; var ticket := s.flushers[f].ticket;
            && 0 < ticket <= |s.marks| && s.marks[ticket - 1] <= |s.fates| <= |s.log|
            && forall i | 0 <= i < s.marks[ticket - 1] && s.log[i] :: i in s.processed || s.fates[i] == Lost
  {
    HistoryKeeps(tr, acts, t);
    Certified(tr[t], f);
  }

  lemma Certified(s: Shared, f: nat)
    requires Kept(s) && f in s.flushers && s.flushers[f].Flushed? && s.n > 0
    ensures var ticket := s.flushers[f].ticket;
            && 0 < ticket <= |s.marks| && s.marks[ticket - 1] <= |s.fates| <= |s.log|
            && forall i | 0 <= i < s.marks[ticket - 1] && s.log[i] :: i in s.processed || s.fates[i] == Lost
  {
    var ticket := s.flushers[f].ticket;
    assert CallerOk(s, s.flushers[f]);
    assert ClearedAt(s, 0, ticket);
    forall i | 0 <= i < s.marks[ticket - 1] && s.log[i] ensures i in s.processed || s.fates[i] == Lost {
      assert ServedAt(i, s.log[i], s.fates[i], s.n, s.loops, s.processed);
      if s.fates[i].Taken? { assert ClearedAt(s, s.fates[i].c, ticket); }
    }
  }

  /** The mark of a request is the number of entries enqueued before it. */
  lemma CallMarksLog(tr: seq<Shared>, acts: seq<Event>, t: nat, f: nat)
    requires History(tr, acts) && t < |acts| && acts[t] == Call(f)
    ensures tr[t + 1].flushers[f] == WaitTail(|tr[t + 1].marks|)
    ensures |tr[t + 1].marks| > 0 && tr[t + 1].marks[|tr[t + 1].marks| - 1] == |tr[t].log|
  {
    HistoryKeeps(tr, acts, t);
    assert Happens(tr[t], acts[t], tr[t + 1]);
  }

  // ---------------------------------------------------------------- a flush that returns

  ghost predicate Reached(s: Shared) {
    exists tr: seq<Shared>, acts: seq<Event> :: History(tr, acts) && tr[|tr| - 1] == s
  }

  lemma ReachedNext(s: Shared, a: Event, t: Shared)
    requires Reached(s) && Happens(s, a, t)
    ensures Reached(t)
  {
    hide Happens, Start;
    var tr: seq<Shared>, acts: seq<Event> :| History(tr, acts) && tr[|tr| - 1] == s;
    var tr', acts' := tr + [t], acts + [a];
    forall x | 0 <= x < |acts'| ensures Happens(tr'[x], acts'[x], tr'[x + 1]) {
      if x < |acts| { assert Happens(tr[x], acts[x], tr[x + 1]); }
    }
    assert History(tr', acts') && tr'[|tr'| - 1] == t;
  }

  lemma StartReached(s: Shared)
    requires Start(s)
    ensures Reached(s)
  {
    var tr: seq<Shared>, acts: seq<Event> := [s], [];
    assert History(tr, acts) && tr[|tr| - 1] == s;
  }

  /** The thread goes through its idle tasks, seeing the log exhausted. */
  lemma IdleReached(s: Shared, r: nat)
    requires Reached(s) && 0 in s.loops && s.loops[0] == ReadRequest && s.req == r && |s.log| == |s.fates|
    requires s.leaving == {} && 0 in s.acks
    ensures Reached(s.(loops := s.loops[0 := Top], acks := s.acks[0 := r]))
  {
    var e := |s.log|;
    var s1, s2, s3 := To(s, 0, UsedTail(r)), To(s, 0, UsedHead(r, e)), To(s, 0, Ack(r));
    hide Reached;
    ReachedNext(s, Thread(0, false), s1);
    assert s1.loops[0 := UsedHead(r, e)] == s2.loops;
    ReachedNext(s1, Thread(0, false), s2);
    assert s2.loops[0 := Ack(r)] == s3.loops;
    ReachedNext(s2, Thread(0, false), s3);
    assert s3.loops[0 := Top] == s.loops[0 := Top];
    ReachedNext(s3, Thread(0, false), s.(loops := s.loops[0 := Top], acks := s.acks[0 := r]));
  }

  /** The flusher polls until it returns. */
  lemma PollReached(s: Shared)
    requires Reached(s) && s.n == 1 && 0 in s.flushers && s.flushers[0] == WaitTail(1) && |s.log| == |s.fates|
    requires 0 in s.acks && s.acks[0] == 1
    ensures Reached(ToF(s, 0, Flushed(1)))
  {
    var e := |s.log|;
    var s1, s2, s3 := ToF(s, 0, WaitHead(1, e)), ToF(s, 0, WaitAcks(1, 0)), ToF(s, 0, WaitAcks(1, 1));
    hide Reached;
    ReachedNext(s, Poll(0, false), s1);
    assert s1.flushers[0 := WaitAcks(1, 0)] == s2.flushers;
    ReachedNext(s1, Poll(0, false), s2);
    assert s2.flushers[0 := WaitAcks(1, 1)] == s3.flushers;
    ReachedNext(s2, Poll(0, false), s3);
    assert s3.flushers[0 := Flushed(1)] == ToF(s, 0, Flushed(1)).flushers;
    ReachedNext(s3, Poll(0, false), ToF(s, 0, Flushed(1)));
  }

  function OneThread(): Shared {
    Shared([], [], 1, map[0 := Top], {}, map[0 := Resting], 0, map[0 := 0], [], {})
  }

  lemma MessageReached()
    ensures Reached(OneThread().(log := [true]))
  {
    var s := OneThread();
    assert Start(s);
    StartReached(s);
    hide Reached, Start;
    DroppedNone();
    assert s.log[0..0] == [] && s.log + [true] == [true] && s.fates + [] == s.fates;
    ReachedNext(s, Enqueue([true], 0), s.(log := [true]));
  }

  /** A message is put, then flush is called, then the thread enters get. */
  lemma RequestReached() returns (s: Shared)
    ensures Reached(s)
    ensures s == Shared([true], [], 1, map[0 := InGet], {}, map[0 := WaitTail(1)], 1, map[0 := 0], [1], {})
  {
    MessageReached();
    hide Reached;
    var s1 := OneThread().(log := [true]);
    var s2 := s1.(flushers := map[0 := WaitTail(1)], req := 1, marks := [1]);
    assert s1.flushers[0 := WaitTail(1)] == s2.flushers && s1.marks + [1] == [1];
    ReachedNext(s1, Call(0), s2);
    s := s2.(loops := map[0 := InGet]);
    assert s2.loops[0 := InGet] == s.loops;
    ReachedNext(s2, Thread(0, false), s);
  }

  /** The thread takes the message, processes it and has done a batch. */
  lemma ProcessReached(s: Shared)
    requires Reached(s)
    requires s == Shared([true], [], 1, map[0 := InGet], {}, map[0 := WaitTail(1)], 1, map[0 := 0], [1], {})
    ensures Reached(s.(loops := map[0 := ReadRequest], fates := [Taken(0)], processed := {0}))
  {
    hide Reached;
    DroppedNone();
    var s1 := s.(loops := map[0 := Hand(0)], fates := [Taken(0)]);
    assert s.loops[0 := Hand(0)] == s1.loops && s.log[0..0] == [];
    ReachedNext(s, Dequeue(0, 0, true, true), s1);
    var s2 := s1.(loops := map[0 := AfterRecord], processed := {0});
    assert s1.loops[0 := AfterRecord] == s2.loops;
    ReachedNext(s1, Thread(0, false), s2);
    var s3 := s2.(loops := map[0 := ReadRequest]);
    assert s2.loops[0 := ReadRequest] == s3.loops;
    ReachedNext(s2, Thread(0, true), s3);
  }

  /** The theorem is about something: there is a run in which a message is put, flush is
      called, the message is processed, and flush returns. */
  lemma FlushReturns() returns (s: Shared)
    ensures Reached(s) && s.n == 1 && 0 in s.flushers && s.flushers[0] == Flushed(1)
    ensures s.marks == [1] && s.log == [true] && s.fates == [Taken(0)] && s.processed == {0}
  {
    hide Reached;
    var s0 := RequestReached();
    ProcessReached(s0);
    var s1 := s0.(loops := map[0 := ReadRequest], fates := [Taken(0)], processed := {0});
    IdleReached(s1, 1);
    var s2 := s1.(loops := s1.loops[0 := Top], acks := s1.acks[0 := 1]);
    PollReached(s2);
    s := ToF(s2, 0, Flushed(1));
  }

  lemma DroppedNone()
    ensures FatesLeft([]) == []
  {
  }
}
