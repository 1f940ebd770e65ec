/** The consumer threads, the flush handshake, and the MPMC ring they share, as one
    transition system: hpu_consumer_flush returning 0 certifies that everything enqueued
    before the call was processed. */
module ConsumerFlush {
  import opened Options
  import opened RingLayout
  import Ring = MpmcRing

  /** Where a consumer thread is in consumer_loop. */
  datatype Loop =
    | Top
    | InGet
    | Hand(pos: nat)
    | AfterRecord
    | ReadRequest
    | UsedTail(r: nat)
    | UsedHead(r: nat, e: nat)
    | Ack(r: nat)
    | Stopped

  /** Where a thread is in hpu_consumer_flush; `ticket` is its request number. */
  datatype Flusher =
    | Resting
    | WaitTail(ticket: nat)
    | WaitHead(ticket: nat, e: nat)
    | WaitAcks(ticket: nat, next: nat)
    | Flushed(ticket: nat)

  /** `n` consumer threads 0 .. n-1; the `leaving` ones have seen the exit flag and drain
      what is left. History: `marks[x]` is how many reservations there
      were when request x+1 was made, `taker` who was handed which position, and
      `processed` the positions that finished hpu_pipeline_process. */
  datatype Sys = Sys(
    ring: Ring.State, n: nat, loops: map<nat, Loop>, leaving: set<nat>, flushers: map<nat, Flusher>,
    req: nat, acks: map<nat, nat>,
    marks: seq<nat>, taker: map<nat, nat>, processed: set<nat>)

  datatype Action =
    | RingStep(a: Ring.Action)
    | LoopStep(c: nat, branch: bool)
    | FlushCall(f: nat)
    | FlushStep(f: nat, timeUp: bool)

  ghost predicate Init(s: Sys) {
    && Ring.Init(s.ring)
    && (forall c: nat :: c in s.ring.cons <==> c < s.n)
    && s.leaving == {} && (forall c: nat :: c in s.loops <==> c < s.n) && (forall c | c in s.loops :: s.loops[c] == Top)
    && (forall c: nat :: c in s.acks <==> c < s.n) && (forall c | c in s.acks :: s.acks[c] == 0)
    && (forall f | f in s.flushers :: s.flushers[f] == Resting)
    && s.req == 0 && s.marks == [] && s.taker == map[] && s.processed == {}
  }

  function At(s: Sys, c: nat, st: Loop): Sys { s.(loops := s.loops[c := st]) }

  function AtF(s: Sys, f: nat, st: Flusher): Sys { s.(flushers := s.flushers[f := st]) }

  /** A ring step; when it ends a get, the thread goes on with the record or, on EMPTY,
      with its idle tasks. */
  function RingDone(s: Sys, a: Ring.Action, ring: Ring.State): Sys {
    var t := s.(ring := ring);
    if a.Consume? && a.c in ring.cons && ring.cons[a.c].Done? && a.c in s.loops && s.loops[a.c].InGet? then
      match ring.cons[a.c].got
      case Some(pos) => At(t, a.c, Hand(pos)).(taker := s.taker[pos := a.c])
      case None => At(t, a.c, ReadRequest)
    else t
  }

  /** Where a thread goes after its idle tasks: around the loop, or out of the drain. */
  function Home(s: Sys, c: nat): Loop { if c in s.leaving then Stopped else Top }

  /** One step of consumer_loop outside get. `branch` resolves the batch size, the exit
      flag and a missing configuration. A leaving thread goes on getting and processing
      until get finds nothing, and then runs its idle tasks once more. */
  function Looped(s: Sys, c: nat, branch: bool): Sys
    requires c in s.loops
  {
    match s.loops[c]
    case Top =>
      if branch && c !in s.leaving then s.(leaving := s.leaving + {c})
      else At(s, c, InGet).(ring := Ring.AtC(s.ring, c, Ring.ReadDeq))
    case InGet => s
    case Hand(pos) => At(s, c, AfterRecord).(processed := s.processed + {pos})
    case AfterRecord => At(s, c, if branch && c !in s.leaving then ReadRequest else Top)
    case ReadRequest => At(s, c, if branch then Home(s, c) else UsedTail(s.req))
    case UsedTail(r) => At(s, c, UsedHead(r, s.ring.enq))
    case UsedHead(r, e) => At(s, c, if e == s.ring.deq then Ack(r) else Home(s, c))
    case Ack(r) => At(s, c, Home(s, c)).(acks := s.acks[c := r])
    case Stopped => s
  }

  function Flushing(s: Sys, f: nat, timeUp: bool): Sys
    requires f in s.flushers
  {
    match s.flushers[f]
    case WaitTail(k) => AtF(s, f, WaitHead(k, s.ring.enq))
    case WaitHead(k, e) =>
      AtF(s, f, if e == s.ring.deq then WaitAcks(k, 0) else if timeUp then Resting else WaitTail(k))
    case WaitAcks(k, x) =>
      if x >= s.n then AtF(s, f, Flushed(k))
      else if x in s.acks && s.acks[x] >= k then AtF(s, f, WaitAcks(k, x + 1))
      else AtF(s, f, if timeUp then Resting else WaitTail(k))
    case _ => s
  }

  ghost predicate Next(s: Sys, a: Action, t: Sys)
    requires s.ring.cap > 0
  {
    match a
    case RingStep(b) =>
      && !b.Get?
      && (b.Consume? ==> b.c in s.loops && s.loops[b.c].InGet?)
      && exists ring: Ring.State :: Ring.Next(s.ring, b, ring) && t == RingDone(s, b, ring)
    case LoopStep(c, branch) => c in s.loops && t == Looped(s, c, branch)
    case FlushCall(f) =>
      f in s.flushers && (s.flushers[f].Resting? || s.flushers[f].Flushed?)
      && t == AtF(s, f, WaitTail(s.req + 1)).(req := s.req + 1, marks := s.marks + [|s.ring.resv|])
    case FlushStep(f, timeUp) => f in s.flushers && t == Flushing(s, f, timeUp)
  }

  ghost predicate Run(tr: seq<Sys>, acts: seq<Action>) {
    && |tr| == |acts| + 1 && Init(tr[0])
    && forall t | 0 <= t < |acts| :: tr[t].ring.cap > 0 && Next(tr[t], acts[t], tr[t + 1])
  }

  ghost predicate Unaliased(tr: seq<Sys>, acts: seq<Action>) {
    |tr| == |acts| + 1 &&
    forall t | 0 <= t < |acts| :: tr[t].ring.cap > 0 &&
      (acts[t].RingStep? ==> Ring.NoAlias(tr[t].ring, acts[t].a))
  }

  function ForEach<T>(n: nat, v: T): (m: map<nat, T>)
    ensures forall c: nat :: c in m <==> c < n
    ensures forall c | c in m :: m[c] == v
  {
    if n == 0 then map[] else ForEach(n - 1, v)[n - 1 := v]
  }

  /** A ring, any number of threads and any number of producers can start. */
  lemma CanStart(cap: nat, n: nat, producers: nat) returns (s: Sys)
    requires CapOk(cap)
    ensures Init(s) && s.ring.cap == cap && s.n == n
    ensures forall p: nat | p < producers :: p in s.ring.prods && s.ring.prods[p] == Ring.Idle
  {
    var prods, cons := ForEach(producers, Ring.Producer.Idle), ForEach(n, Ring.Outside);
    var ring := Ring.State(cap, 0, 0, seq(cap, _ => Plain(0)), false, 0, 0, None, prods, cons, [], 0, []);
    s := Sys(ring, n, ForEach(n, Top), {}, map[0 := Resting], 0, ForEach(n, 0), [], map[], {});
  }
}
