/** The locked ring under the flush handshake: every put and every get is one event on the
    log, so `LogFlush.FlushCertifies` holds for it, under all three policies and for any
    number of consumer threads. */
module LockedFlush {
  import opened Bytes
  import opened ConsumerFlush
  import opened LogFlush
  import LogDrain
  import opened LockedLayout
  import opened LockedQueue
  import opened LockedRing

  function Kinds(recs: seq<Rec>): (log: seq<bool>)
    ensures |log| == |recs| && forall i | 0 <= i < |recs| :: log[i] == recs[i].msg.Some?
  {
    seq(|recs|, i requires 0 <= i < |recs| => recs[i].msg.Some?)
  }

  /** The records in the ring are the entries of the log that have not left. */
  ghost predicate Mirrors(s: Shared, recs: seq<Rec>) {
    |s.fates| <= |s.log| && s.log[|s.fates|..] == Kinds(recs)
  }

  /** hpu_ring_used: head meets tail exactly when all entries have left. */
  lemma UsedIsLog(s: Shared, cap: nat, mem: seq<byte>, head: nat, tail: nat, recs: seq<Rec>)
    requires Mirrors(s, recs) && RingShape(cap, mem, head, tail, recs)
    ensures head == tail <==> |s.log| == |s.fates|
  {
    if head == tail { Drained(cap, mem, recs, head, tail); }
  }

  lemma KindsConcat(a: seq<Rec>, b: seq<Rec>)
    ensures Kinds(a + b) == Kinds(a) + Kinds(b)
  {
  }

  lemma KindsDrop(recs: seq<Rec>, n: nat)
    requires n <= |recs|
    ensures Kinds(recs[n..]) == Kinds(recs)[n..]
  {
  }

  lemma KindsAfterPut(before: seq<Rec>, n: nat, pads: seq<Rec>, stored: bool, after: seq<Rec>)
    requires n <= |before|
    requires if stored then |after| > 0 && after[|after| - 1].msg.Some? && after[..|after| - 1] == before[n..] + pads
             else after == before[n..] + pads
    ensures Kinds(after) == Kinds(before)[n..] + (Kinds(pads) + if stored then [true] else [])
  {
    KindsDrop(before, n);
    KindsConcat(before[n..], pads);
    var b, p := Kinds(before)[n..], Kinds(pads);
    if stored {
      var last := after[|after| - 1];
      assert after == (before[n..] + pads) + [last] && Kinds([last]) == [true];
      KindsConcat(before[n..] + pads, [last]);
      assert (b + p) + [true] == b + (p + [true]);
    } else {
      assert b + (p + []) == b + p;
    }
  }

  lemma DropTwice(log: seq<bool>, a: nat, b: nat, adds: seq<bool>)
    requires a + b <= |log|
    ensures (log + adds)[a + b..] == log[a..][b..] + adds
    ensures forall i | a <= i < a + b :: log[i] == log[a..][i - a] == log[a..a + b][i - a]
  {
  }

  /** What a put says of the records (`LockedRing.Ring.Put`) is an enqueue event: the records
      that were overwritten leave, the pads and the message enter. */
  lemma PutIsEnqueue(s: Shared, before: seq<Rec>, n: nat, pads: seq<Rec>, stored: bool, m: Message, after: seq<Rec>)
    returns (t: Shared)
    requires Mirrors(s, before) && Becomes(before, n, pads, stored, m, after)
    ensures Happens(s, Enqueue(Kinds(pads) + if stored then [true] else [], n), t) && Mirrors(t, after)
    ensures |t.fates| == |s.fates| + n
    ensures forall i | |s.fates| <= i < |t.fates| :: t.fates[i] == if s.log[i] then Lost else Skipped
  {
    var adds := Kinds(pads) + if stored then [true] else [];
    KindsAfterPut(before, n, pads, stored, after);
    hide Kinds, Happens, FatesLeft;
    t := Enqueued(s, adds, n);
    assert t.log[|t.fates|..] == Kinds(before)[n..] + adds by { DropTwice(s.log, |s.fates|, n, adds); }
  }

  lemma Enqueued(s: Shared, adds: seq<bool>, n: nat) returns (t: Shared)
    requires |s.fates| + n <= |s.log|
    ensures Happens(s, Enqueue(adds, n), t) && t.log == s.log + adds && |t.fates| == |s.fates| + n
    ensures forall i | |s.fates| <= i < |t.fates| :: t.fates[i] == if s.log[i] then Lost else Skipped
  {
    var k := |s.fates|;
    var gone := FatesLeft(s.log[k..k + n]);
    t := s.(log := s.log + adds, fates := s.fates + gone);
    forall i | k <= i < |t.fates| ensures t.fates[i] == if s.log[i] then Lost else Skipped {
      assert t.fates[i] == gone[i - k] && s.log[k..k + n][i - k] == s.log[i];
    }
  }

  lemma Dequeued(s: Shared, c: nat, pads: nat, found: bool, done: bool) returns (t: Shared)
    requires |s.fates| + pads + (if found then 1 else 0) <= |s.log| && c in s.loops && s.loops[c].InGet?
    requires forall i | |s.fates| <= i < |s.fates| + pads :: !s.log[i]
    requires found ==> s.log[|s.fates| + pads]
    ensures Happens(s, Dequeue(c, pads, found, done), t)
    ensures t.log == s.log && |t.fates| == |s.fates| + pads + if found then 1 else 0
  {
    var k := |s.fates| + pads;
    t := To(s, c, if found then Hand(k) else if done then ReadRequest else InGet)
         .(fates := s.fates + FatesLeft(s.log[|s.fates|..k]) + if found then [Taken(c)] else []);
  }

  /** What a get says of them (`LockedRing.Ring.Get`) is a dequeue event: pads leave, and
      thread c has the message behind them in hand, or finds none. */
  lemma GetIsDequeue(s: Shared, before: seq<Rec>, n: nat, found: bool, after: seq<Rec>, c: nat, done: bool)
    returns (t: Shared)
    requires Mirrors(s, before) && Leaves(before, n, found, after) && c in s.loops && s.loops[c].InGet?
    ensures var pads := if found then n - 1 else n;
            pads >= 0 && Happens(s, Dequeue(c, pads, found, done), t) && Mirrors(t, after)
  {
    var k := |s.fates|;
    KindsDrop(before, n);
    forall i | k <= i < k + n ensures s.log[i] == before[i - k].msg.Some? {
      assert s.log[k..][i - k] == Kinds(before)[i - k];
    }
    hide Kinds, Happens;
    t := Dequeued(s, c, if found then n - 1 else n, found, done);
    assert s.log[k..][n..] == s.log[k + n..];
  }

  // ---------------------------------------------------------------- joint runs

  /** The records in the ring and the threads around it. */
  datatype Joint = Joint(recs: seq<Rec>, sys: Shared)

  /** A put with what its contract returns, a get by thread c (`done` when an empty get is
      over rather than about to wait), or a step outside the ring. */
  datatype Action =
    | Put(m: Message, n: nat, pads: seq<Rec>, stored: bool)
    | Get(c: nat, n: nat, found: bool, done: bool)
    | Elsewhere(e: Event)

  function EventOf(a: Action): Event {
    match a
    case Put(_, n, pads, stored) => Enqueue(Kinds(pads) + if stored then [true] else [], n)
    case Get(c, n, found, done) => Dequeue(c, if found && n > 0 then n - 1 else n, found, done)
    case Elsewhere(e) => e
  }

  /** One critical section of the ring, as its contract describes it, or one other step. */
  ghost predicate Next(j: Joint, a: Action, t: Joint) {
    && Happens(j.sys, EventOf(a), t.sys)
    && match a
       case Put(m, n, pads, stored) => Becomes(j.recs, n, pads, stored, m, t.recs)
       case Get(_, n, found, _) => Leaves(j.recs, n, found, t.recs) && (!found ==> t.recs == [])
       case Elsewhere(e) => (e.Thread? || e.Call? || e.Poll?) && t.recs == j.recs
  }

  ghost predicate Run(tr: seq<Joint>, acts: seq<Action>) {
    && |tr| == |acts| + 1 && Start(tr[0].sys) && tr[0].recs == []
    && forall t | 0 <= t < |acts| :: Next(tr[t], acts[t], tr[t + 1])
  }

  lemma OutsideLog(s: Shared, e: Event, t: Shared)
    requires Happens(s, e, t) && (e.Thread? || e.Call? || e.Poll?)
    ensures t.log == s.log && t.fates == s.fates
  {
  }

  lemma HappensOnce(s: Shared, e: Event, t: Shared, u: Shared)
    requires Happens(s, e, t) && Happens(s, e, u)
    ensures t == u
  {
  }

  lemma NextKeeps(j: Joint, a: Action, t: Joint)
    requires Kept(j.sys) && Mirrors(j.sys, j.recs) && Next(j, a, t)
    ensures Kept(t.sys) && Mirrors(t.sys, t.recs)
  {
    hide Kept, Kinds, Happens;
    HappensKeeps(j.sys, EventOf(a), t.sys);
    match a
    case Put(m, n, pads, stored) =>
      var u := PutIsEnqueue(j.sys, j.recs, n, pads, stored, m, t.recs);
      HappensOnce(j.sys, EventOf(a), t.sys, u);
    case Get(c, n, found, done) =>
      InsideGet(j.sys, EventOf(a), t.sys);
      var u := GetIsDequeue(j.sys, j.recs, n, found, t.recs, c, done);
      HappensOnce(j.sys, EventOf(a), t.sys, u);
    case Elsewhere(e) =>
      OutsideLog(j.sys, e, t.sys);
  }

  lemma InsideGet(s: Shared, e: Event, t: Shared)
    requires Happens(s, e, t) && e.Dequeue?
    ensures e.c in s.loops && s.loops[e.c].InGet?
  {
  }

  lemma {:induction false} RunKeeps(tr: seq<Joint>, acts: seq<Action>, t: nat)
    requires Run(tr, acts) && t < |tr|
    ensures Kept(tr[t].sys) && Mirrors(tr[t].sys, tr[t].recs)
  {
    if t == 0 {
      StartKept(tr[0].sys);
    } else {
      hide Kept, Mirrors, Next;
      RunKeeps(tr, acts, t - 1);
      NextKeeps(tr[t - 1], acts[t - 1], tr[t]);
    }
  }

  /** What flush promises over the locked ring, under any policy and for any number of
      consumer threads: when it has returned 0, every message enqueued before its request
      was processed or overwritten. What is still in the ring was enqueued later. */
  lemma FlushCertifiesLocked(tr: seq<Joint>, acts: seq<Action>, t: nat, f: nat)
    requires Run(tr, acts) && t < |tr|
    requires f in tr[t].sys.flushers && tr[t].sys.flushers[f].Flushed? && tr[t].sys.n > 0
    ensures var s := tr[t].sys; var ticket := s.flushers[f].ticket;
            && 0 < ticket <= |s.marks| && s.marks[ticket - 1] <= |s.fates| <= |s.log|
            && (forall i | 0 <= i < s.marks[ticket - 1] && s.log[i] :: i in s.processed || s.fates[i] == Lost)
            && s.log[|s.fates|..] == Kinds(tr[t].recs)
  {
    RunKeeps(tr, acts, t);
    Certified(tr[t].sys, f);
  }

  // ---------------------------------------------------------------- the drain after the exit flag

  function Threads(tr: seq<Joint>): seq<Shared> { seq(|tr|, x requires 0 <= x < |tr| => tr[x].sys) }

  function Events(acts: seq<Action>): seq<Event> { seq(|acts|, x requires 0 <= x < |acts| => EventOf(acts[x])) }

  lemma RunIsHistory(tr: seq<Joint>, acts: seq<Action>)
    requires Run(tr, acts)
    ensures History(Threads(tr), Events(acts))
  {
    hide Happens, Start;
    forall t | 0 <= t < |acts| ensures Happens(Threads(tr)[t], Events(acts)[t], Threads(tr)[t + 1]) {
      assert Next(tr[t], acts[t], tr[t + 1]);
    }
  }

  /** A get that finds nothing leaves the ring empty, and a refused put changes nothing. */
  lemma GetDrains(j: Joint, a: Action, t: Joint)
    requires Kept(j.sys) && Mirrors(j.sys, j.recs) && Next(j, a, t) && (a.Put? ==> !a.stored && a.pads == [])
    ensures LogDrain.DrainEvent(j.sys, EventOf(a))
  {
    if a.Get? && !a.found {
      NextKeeps(j, a, t);
      assert |t.sys.log[|t.sys.fates|..]| == 0;
    }
  }

  /** When all consumer threads of the locked ring have stopped, and nothing was put from the
      moment the first of them began leaving (the ring being closed), every message was
      processed or overwritten and the ring is empty. */
  lemma DrainProcessesAllLocked(tr: seq<Joint>, acts: seq<Action>, t: nat)
    requires Run(tr, acts) && t < |tr| && tr[t].sys.n > 0
    requires forall c | c in tr[t].sys.loops :: tr[t].sys.loops[c] == Stopped
    requires forall x | 0 <= x < t && tr[x].sys.leaving != {} && acts[x].Put? :: !acts[x].stored && acts[x].pads == []
    ensures var s := tr[t].sys;
            tr[t].recs == [] && forall i | 0 <= i < |s.log| && s.log[i] ::
              i in s.processed || (i < |s.fates| && s.fates[i] == Lost)
  {
    RunIsHistory(tr, acts);
    assert LogDrain.DrainsAlone(Threads(tr), Events(acts), t) by {
      forall x | 0 <= x < t && Threads(tr)[x].leaving != {}
        ensures LogDrain.DrainEvent(Threads(tr)[x], Events(acts)[x])
      {
        RunKeeps(tr, acts, x);
        hide Kept, Happens, LogDrain.DrainEvent;
        assert Next(tr[x], acts[x], tr[x + 1]);
        GetDrains(tr[x], acts[x], tr[x + 1]);
      }
    }
    RunKeeps(tr, acts, t);
    hide Kept, History;
    LogDrain.DrainProcessesAll(Threads(tr), Events(acts), t);
    assert |Kinds(tr[t].recs)| == 0;
  }
}
