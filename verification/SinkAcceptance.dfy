/** When a drained sink queue accepts an event. The bridge in front of the boundary is
    always four bytes, so a distance that is not a multiple of four is never bridged. */
module SinkAcceptance {
  import opened RingLayout
  import opened SinkQueue

  function Gap(cap: nat, tail: nat): (g: nat)
    requires cap > 0
    ensures 0 < g <= cap
  {
    cap - Off(cap, tail)
  }

  /** Pushing the same event again and again, with the worker draining in between, is
      accepted within `k` attempts. */
  ghost predicate AcceptedWithin(cap: nat, tail: nat, need: nat, k: nat)
    requires cap > 0
    decreases k
  {
    k > 0 && (Accepts(cap, tail, tail, need) || AcceptedWithin(cap, Rejected(cap, tail, tail, need), need, k - 1))
  }

  /** The exact condition: the record fits in front of the boundary with four bytes to
      spare, or the boundary can be reached in steps of four and the queue is large enough. */
  predicate Reachable(cap: nat, tail: nat, need: nat)
    requires cap > 0
  {
    Gap(cap, tail) >= need + 4 || (Gap(cap, tail) % 4 == 0 && need + 4 <= cap)
  }

  lemma GapAfterBridge(cap: nat, tail: nat)
    requires cap > 0 && Gap(cap, tail) >= 4
    ensures Gap(cap, tail + 4) == if Gap(cap, tail) == 4 then cap else Gap(cap, tail) - 4
  {
    OffStep(cap, tail, 4);
  }

  lemma {:induction false} ReachableIsAccepted(cap: nat, tail: nat, need: nat) returns (k: nat)
    requires cap > 0 && Reachable(cap, tail, need)
    ensures AcceptedWithin(cap, tail, need, k)
    decreases Gap(cap, tail)
  {
    if Accepts(cap, tail, tail, need) {
      k := 1;
    } else {
      GapAfterBridge(cap, tail);
      var k' := ReachableIsAccepted(cap, tail + 4, need);
      k := k' + 1;
    }
  }

  lemma {:induction false} AcceptedIsReachable(cap: nat, tail: nat, need: nat, k: nat)
    requires cap > 0 && AcceptedWithin(cap, tail, need, k)
    ensures Reachable(cap, tail, need)
    decreases k
  {
    hide Off;
    if !Accepts(cap, tail, tail, need) {
      AcceptedIsReachable(cap, Rejected(cap, tail, tail, need), need, k - 1);
      if Gap(cap, tail) >= 4 { GapAfterBridge(cap, tail); }
    }
  }

  ghost predicate EventuallyAccepts(cap: nat, tail: nat, need: nat)
    requires cap > 0
  {
    exists k: nat :: AcceptedWithin(cap, tail, need, k)
  }

  /** A drained queue eventually accepts an event if and only if its record fits in front
      of the boundary, or the boundary lies a multiple of four bytes away and the record
      leaves four bytes of the whole ring free. */
  lemma EventuallyAccepted(cap: nat, tail: nat, need: nat)
    requires cap > 0
    ensures EventuallyAccepts(cap, tail, need) <==> Reachable(cap, tail, need)
  {
    if Reachable(cap, tail, need) {
      var k := ReachableIsAccepted(cap, tail, need);
      assert AcceptedWithin(cap, tail, need, k);
    }
    if EventuallyAccepts(cap, tail, need) {
      var k: nat :| AcceptedWithin(cap, tail, need, k);
      AcceptedIsReachable(cap, tail, need, k);
    }
  }

  // ---------------------------------------------------------------- runs

  datatype Move = PushOf(need: nat) | SweepAll

  /** Some push of the run is accepted. */
  ghost predicate SomeAccepted(cap: nat, head: nat, tail: nat, moves: seq<Move>)
    requires cap > 0 && head <= tail <= head + cap
    decreases moves
  {
    moves != [] &&
    match moves[0]
    case SweepAll => SomeAccepted(cap, tail, tail, moves[1..])
    case PushOf(need) =>
      || Accepts(cap, head, tail, need)
      || SomeAccepted(cap, head, Rejected(cap, head, tail, need), moves[1..])
  }

  /** One, two or three bytes in front of the boundary the queue is wedged: no push of any
      size is accepted again, however often the worker drains it. */
  lemma {:induction false} WedgedForever(cap: nat, head: nat, tail: nat, moves: seq<Move>)
    requires cap > 0 && head <= tail <= head + cap && Gap(cap, tail) < 4
    ensures !SomeAccepted(cap, head, tail, moves)
    decreases moves
  {
    if moves != [] {
      match moves[0]
      case SweepAll => WedgedForever(cap, tail, tail, moves[1..]);
      case PushOf(need) => WedgedForever(cap, head, tail, moves[1..]);
    }
  }

  /** No push of the run would fit in front of the boundary as it lies now. */
  predicate AllLonger(moves: seq<Move>, gap: nat) {
    forall m | m in moves && m.PushOf? :: m.need + 4 > gap
  }

  /** With a boundary that is not a multiple of four bytes away, nothing longer than the
      space in front of it is ever accepted, in any mix of pushes and sweeps: each refused
      push walks tail four bytes on, never to the boundary. */
  lemma {:induction false} LongerNeverAccepted(cap: nat, head: nat, tail: nat, moves: seq<Move>)
    requires cap > 0 && head <= tail <= head + cap && Gap(cap, tail) % 4 != 0
    requires AllLonger(moves, Gap(cap, tail))
    ensures !SomeAccepted(cap, head, tail, moves)
    decreases moves
  {
    if moves != [] {
      assert moves[0] in moves && forall m | m in moves[1..] :: m in moves;
      match moves[0]
      case SweepAll => LongerNeverAccepted(cap, tail, tail, moves[1..]);
      case PushOf(need) =>
        if Gap(cap, tail) >= 4 { GapAfterBridge(cap, tail); }
        LongerNeverAccepted(cap, head, Rejected(cap, head, tail, need), moves[1..]);
    }
  }

  /** A shorter record can free such a queue: one that fits in front of the boundary and
      leaves a multiple of four bytes there. */
  lemma ShorterRecordFrees(cap: nat, tail: nat, short: nat, need: nat)
    requires cap > 0 && short + 4 <= Gap(cap, tail) && (Gap(cap, tail) - short) % 4 == 0 && need + 4 <= cap
    ensures Accepts(cap, tail, tail, short) && EventuallyAccepts(cap, tail + short, need)
  {
    OffStep(cap, tail, short);
    EventuallyAccepted(cap, tail + short, need);
  }

  /** A run on a queue of the least size that can be configured: a record of 65473 bytes is
      accepted and swept, and then nothing of 60 bytes or more ever is, although the queue
      is empty: the first refusals leave tail 59, 55, ... and finally 3 bytes in front of
      the boundary. One record of 59 bytes in time would have freed it. */
  lemma DrainedQueueRefuses(moves: seq<Move>)
    requires forall m | m in moves && m.PushOf? :: m.need >= 60
    ensures Accepts(65536, 0, 0, 65473)
    ensures !SomeAccepted(65536, 65473, 65473, moves) && !EventuallyAccepts(65536, 65473, 60)
    ensures Accepts(65536, 65473, 65473, 59) && EventuallyAccepts(65536, 65532, 60)
  {
    assert Off(65536, 0) == 0 && Off(65536, 65473) == 65473 && Gap(65536, 65473) == 63;
    EventuallyAccepted(65536, 65473, 60);
    LongerNeverAccepted(65536, 65473, 65473, moves);
    ShorterRecordFrees(65536, 65473, 59, 60);
  }
}
