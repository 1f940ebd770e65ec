/** The locked ring: a mutex-protected byte ring that refines a queue of messages. Each
    method body is one critical section; waiting on a condition variable is returning
    `Waits` (the caller runs the method again when it is woken). */
module LockedRing {
  import opened Bytes
  import opened Options
  import opened RingLayout
  import opened LockedLayout
  import opened LockedQueue

  datatype Policy = Discard | Overwrite | Wait
  datatype PutResult = Stored | Dropped | Waits

  class Ring {
    const cap: nat
    const policy: Policy
    const buf: array<byte>
    var head: nat
    var tail: nat
    var dropped: nat
    var overwritten: nat
    var closed: bool
    ghost var recs: seq<Rec>

    ghost predicate Valid()
      reads this, buf
    {
      RingShape(cap, buf[..], head, tail, recs) && AllFaithful(cap, recs)
    }

    /** The abstract queue. */
    ghost function Queue(): seq<Message>
      reads this
    {
      Messages(recs)
    }

    constructor (capacity: nat, policy: Policy)
      requires 2 * HDR <= capacity && Align8(capacity) < TWO32
      ensures Valid() && Queue() == [] && fresh(buf) && cap == Align8(capacity) && this.policy == policy
      ensures head == tail == dropped == overwritten == 0 && !closed
    {
      cap := Align8(capacity);
      this.policy := policy;
      buf := new byte[Align8(capacity)];
      head, tail, dropped, overwritten, closed, recs := 0, 0, 0, 0, false, [];
    }

    /** One part of a record; nothing is copied for an empty one. */
    method CopyPart(p: nat, bs: seq<byte>) returns (q: nat)
      requires p + |bs| <= buf.Length
      modifies buf
      ensures Stores(old(buf[..]), p, bs, buf[..]) && q == p + |bs|
    {
      if |bs| > 0 {
        CopyInto(buf, p, bs);
      }
      q := p + |bs|;
    }

    /** The header, then each part that is not empty. */
    method WriteRecord(off: nat, h: seq<byte>, m: Message)
      requires off + |h| + |Payload(m)| <= buf.Length
      modifies buf
      ensures Stores(old(buf[..]), off, h + Payload(m), buf[..])
    {
      hide Stores;
      ghost var m0 := buf[..];
      CopyInto(buf, off, h);
      var p := off + |h|;
      ghost var m1 := buf[..];
      p := CopyPart(p, m.category);
      ghost var m2 := buf[..];
      p := CopyPart(p, m.file);
      ghost var m3 := buf[..];
      p := CopyPart(p, m.func);
      ghost var m4 := buf[..];
      p := CopyPart(p, m.text);
      ghost var m5 := buf[..];
      p := CopyPart(p, m.fields);
      SpliceChain(off, m0, h, m1, m.category, m2, m.file, m3, m.func, m4, m.text, m5, m.fields, buf[..]);
    }

    /** A record for `m` of `total` bytes goes to tail. */
    method AppendRecord(m: Message, total: nat)
      requires Valid() && MessageOk(cap, m) && MessageLen(m) <= total
      requires Sited(cap, tail, total) && tail + total <= head + cap
      modifies this`tail, this`recs, buf
      ensures Valid() && tail == old(tail) + total
      ensures Added(old(recs), recs, Some(m), old(tail), total)
    {
      hide HeaderBytes, AllFaithful, Faithful, Geometry, Laid;
      var h := HeaderBytes(MetaOf(m, total));
      ghost var r := Rec(tail, total, Some(m), h + Payload(m));
      MessageRecOk(cap, r, m, h);
      ghost var mem := buf[..];
      OffIsRemainder(cap, tail);
      WriteRecord(tail % cap, h, m);
      Append(cap, mem, head, tail, recs, r, buf[..]);
      tail, recs := tail + total, recs + [r];
    }

    /** A pad that spans to the boundary goes to tail. */
    method AppendPad()
      requires Valid() && tail + (cap - Off(cap, tail)) <= head + cap
      modifies this`tail, this`recs, buf
      ensures Valid() && tail == old(tail) + (cap - Off(cap, old(tail)))
      ensures Added(old(recs), recs, None, old(tail), cap - Off(cap, old(tail)))
    {
      hide HeaderBytes, AllFaithful, Faithful, Geometry, Laid, Holds, Stores;
      OffIsRemainder(cap, tail);
      var off := tail % cap;
      var pad := cap - off;
      var h := HeaderBytes(PadMeta(pad));
      ghost var mem, r := buf[..], Rec(tail, pad, None, h);
      PadRecOk(cap, r);
      CopyInto(buf, off, h);
      Append(cap, mem, head, tail, recs, r, buf[..]);
      tail, recs := tail + pad, recs + [r];
    }

    /** Overwrite: drop the oldest records until `need` bytes are free. */
    method RemoveOldest(need: nat) returns (ghost n: nat)
      requires Valid() && need <= cap
      modifies this`head, this`overwritten, this`recs
      ensures Valid() && cap - (tail - head) >= need
      ensures n <= |old(recs)| && recs == old(recs)[n..]
      ensures overwritten == old(overwritten) + |Messages(old(recs)[..n])|
      ensures n > 0 ==> tail + need > old(recs)[n - 1].pos + cap
      ensures cap - (tail - old(head)) < need ==> n > 0
    {
      hide Geometry, Faithful, Holds, AllFaithful, Laid, HeaderAt, IsPad, Messages;
      ghost var before := recs;
      n := 0;
      assert before[..0] == [];
      NoMessages();
      while cap - (tail - head) < need
        invariant Valid() && n <= |before| && recs == before[n..]
        invariant overwritten == old(overwritten) + |Messages(before[..n])|
        invariant n > 0 ==> tail + need > before[n - 1].pos + cap
        invariant n == 0 ==> head == old(head)
        decreases |recs|
      {
        OffIsRemainder(cap, head);
        Oldest(cap, buf[..], head, tail, recs);
        var oldest := HeaderAt(buf[..], head % cap);
        var isPad := IsPad(oldest);
        MessagesGrow(before, n);
        head := head + oldest.totalLen;
        if !isPad {
          overwritten := overwritten + 1;
        }
        recs := recs[1..];
        n := n + 1;
      }
    }

    /** The write of put: the record is extended to the boundary when no header would fit
        behind it. */
    method WriteAtTail(m: Message, need: nat, contig: nat)
      requires Valid() && MessageOk(cap, m) && need == MessageLen(m)
      requires contig == cap - Off(cap, tail) && need <= contig && tail + need <= head + cap
      modifies this`tail, this`recs, buf
      ensures Valid() && tail == old(tail) + if contig - need < HDR then contig else need
      ensures |recs| > 0 && recs[|recs| - 1].msg == Some(m) && recs[..|recs| - 1] == old(recs)
    {
      NeedFits(cap, m);
      hide Geometry, Faithful, Holds, AllFaithful, Laid, MessageOk, MessageLen;
      var total := need;
      if contig - need < HDR {
        total := contig;
        ExtensionIsFree(cap, head, tail, need);
      }
      SitedTotal(cap, tail, need, total);
      AppendRecord(m, total);
    }

    /** hpu_ring_put. `n` is how many of the oldest records were removed for it and `pads`
        the pads written in front of it. */
    method Put(m: Message) returns (rc: PutResult, ghost n: nat, ghost pads: seq<Rec>)
      requires Valid() && MessageOk(cap, m)
      modifies this`head, this`tail, this`dropped, this`overwritten, this`recs, buf
      ensures Valid()
      ensures PutOk(cap, policy, closed, old(head), old(tail), old(recs), m, rc, n, pads, tail, recs)
      ensures !closed && old(head) == old(tail) ==> rc == Stored
      ensures overwritten == old(overwritten) + |Messages(old(recs)[..n])|
      ensures dropped == old(dropped) + if rc == Dropped then 1 else 0
      ensures |Messages(old(recs)[..n])| <= |old(Queue())|
      ensures Queue() == old(Queue())[|Messages(old(recs)[..n])|..] + if rc == Stored then [m] else []
    {
      hide Geometry, Faithful, Holds, AllFaithful, Laid, Messages, MessageOk, MessageLen, Progress, Fits, Sited, Added,
           Accepts, PutOk, Becomes, PaddedFor, Off;
      var need := MessageLen(m);
      ghost var before, start := recs, tail;
      n, pads := 0, [];
      NeedFits(cap, m);
      DrainedAccepts(cap, tail, m);
      NoProgress(cap, policy, recs, head, tail, need, overwritten);
      while true
        invariant Valid() && closed == old(closed) && dropped == old(dropped)
        invariant closed ==> n == 0 && pads == []
        invariant Progress(cap, policy, before, old(head), start, need, n, pads, recs, head, tail,
                           overwritten - old(overwritten))
        decreases if cap - Off(cap, tail) < need then 1 else 0, if cap - (tail - head) < need then 1 else 0
      {
        OffIsRemainder(cap, tail);
        var free := cap - (tail - head);
        var contig := cap - tail % cap;
        ghost var mid, h, t := recs, head, tail;
        if closed {
          RefusedPut(cap, policy, true, before, old(head), start, m, Dropped, n, pads, recs, head, tail,
                     overwritten - old(overwritten));
          dropped := dropped + 1;
          rc := Dropped;
          break;
        }
        if contig < need {
          if free >= contig {
            AppendPad();
            PadStep(cap, policy, before, old(head), start, need, n, pads, mid, head, t, recs,
                    overwritten - old(overwritten));
            pads := [recs[|recs| - 1]];
            continue;
          }
        } else if free >= need {
          WriteAtTail(m, need, contig);
          StoredPut(cap, policy, before, old(head), start, m, n, pads, mid, h, t, recs, tail,
                    overwritten - old(overwritten));
          rc := Stored;
          break;
        }
        if policy == Overwrite {
          ghost var over := overwritten;
          ghost var k := RemoveOldest(need);
          RemoveStep(cap, policy, before, old(head), start, need, n, pads, mid, h, tail, k, recs, head,
                     over - old(overwritten), overwritten - over);
          n := n + k;
          continue;
        }
        RefusedPut(cap, policy, false, before, old(head), start, m, if policy == Wait then Waits else Dropped,
                   n, pads, recs, head, tail, overwritten - old(overwritten));
        if policy == Wait {
          rc := Waits;
          break;
        }
        dropped := dropped + 1;
        rc := Dropped;
        break;
      }
      PutMeans(cap, policy, closed, old(head), start, before, m, rc, n, pads, tail, recs);
    }

    /** hpu_ring_get with a staging buffer as large as the ring. None is EMPTY (or, before
        the deadline, the point where the consumer waits for a signal). `n` is how many
        records left the ring: pads, and behind them the message that is returned. */
    method Get(staging: array<byte>) returns (got: Option<View>, ghost n: nat)
      requires Valid() && staging != buf && staging.Length >= cap
      modifies this`head, this`recs, staging
      ensures Valid()
      ensures got.None? <==> old(Queue()) == []
      ensures got.None? ==> recs == [] && head == tail
      ensures got.Some? ==> Shows(got.value, old(Queue())[0]) && Queue() == old(Queue())[1..]
      ensures Leaves(old(recs), n, got.Some?, recs)
    {
      hide Geometry, Faithful, Holds, AllFaithful, Laid, Messages, HeaderAt, IsPad, ParseView, Shows, Fits, Leaves;
      got, n := None, 0;
      LeavesNone(recs);
      while head != tail
        invariant Valid() && Queue() == old(Queue()) && buf[..] == old(buf[..])
        invariant Leaves(old(recs), n, false, recs)
        decreases |recs|
      {
        OffIsRemainder(cap, head);
        Oldest(cap, buf[..], head, tail, recs);
        MessagesFront(recs);
        LeavesMore(old(recs), n, recs);
        var off := head % cap;
        var meta := HeaderAt(buf[..], off);
        var total := meta.totalLen;
        if IsPad(meta) {
          head, recs, n := head + total, recs[1..], n + 1;
          continue;
        }
        FrontFits(cap, buf[..], recs[0]);
        SplicePrefix(staging[..], buf[off..off + total]);
        CopyInto(staging, 0, buf[off..off + total]);
        assert staging[..total] == staging[..][..total] == buf[off..off + total] == buf[..][off..off + total];
        FrontShows(cap, buf[..], recs[0]);
        got := ParseView(staging[..total]);
        head, recs, n := head + total, recs[1..], n + 1;
        return;
      }
      Drained(cap, buf[..], recs, head, tail);
    }
  }

  /** The first n records are gone: pads, and if `found` a message behind them. */
  ghost predicate Leaves(before: seq<Rec>, n: nat, found: bool, after: seq<Rec>) {
    && n <= |before| && after == before[n..]
    && (found ==> n > 0 && before[n - 1].msg.Some?)
    && forall i | 0 <= i < if found then n - 1 else n :: before[i].msg.None?
  }

  lemma LeavesNone(recs: seq<Rec>)
    ensures Leaves(recs, 0, false, recs)
  {
  }

  lemma LeavesMore(before: seq<Rec>, n: nat, recs: seq<Rec>)
    requires Leaves(before, n, false, recs) && recs != []
    ensures Leaves(before, n + 1, recs[0].msg.Some?, recs[1..])
  {
    assert recs[0] == before[n];
  }

  lemma MessagesFront(recs: seq<Rec>)
    requires recs != []
    ensures recs[0].msg.None? ==> Messages(recs) == Messages(recs[1..])
    ensures recs[0].msg.Some? ==> Messages(recs) != [] && Messages(recs)[0] == recs[0].msg.value
                                  && Messages(recs)[1..] == Messages(recs[1..])
  {
  }

  lemma FrontFits(cap: nat, mem: seq<byte>, r: Rec)
    requires cap > 0 && |mem| == cap && Geometry(cap, r)
    ensures HDR <= r.len && Off(cap, r.pos) + r.len <= cap
  {
  }

  lemma Drained(cap: nat, mem: seq<byte>, recs: seq<Rec>, head: nat, tail: nat)
    requires head == tail && RingShape(cap, mem, head, tail, recs)
    ensures Messages(recs) == [] && recs == []
  {
    if recs != [] {
      assert Geometry(cap, recs[0]);
      LaidAscends(recs[1..], head + recs[0].len, tail);
    }
  }

  /** What a put does to the records: the first n are gone, pads follow, and then the
      message if it was stored. */
  ghost predicate Becomes(before: seq<Rec>, n: nat, pads: seq<Rec>, stored: bool, m: Message, after: seq<Rec>) {
    && n <= |before| && (forall r | r in pads :: r.msg.None?)
    && if stored then |after| > 0 && after[|after| - 1].msg == Some(m) && after[..|after| - 1] == before[n..] + pads
       else after == before[n..] + pads
  }

  lemma PutQueue(before: seq<Rec>, n: nat, pads: seq<Rec>, recs: seq<Rec>, stored: bool, m: Message)
    requires Becomes(before, n, pads, stored, m, recs)
    ensures |Messages(before[..n])| <= |Messages(before)|
    ensures Messages(recs) == Messages(before)[|Messages(before[..n])|..] + if stored then [m] else []
  {
    QueueAfter(before, n, pads, before[n..] + pads);
    if stored {
      assert recs == (before[n..] + pads) + [recs[|recs| - 1]];
      MessagesConcat(before[n..] + pads, [recs[|recs| - 1]]);
    }
  }

  /** One pad, from `start` to the boundary, because a record of `need` bytes did not fit there. */
  ghost predicate PaddedFor(cap: nat, start: nat, need: nat, pads: seq<Rec>, tail: nat)
    requires cap > 0
  {
    && |pads| == 1 && pads[0].msg.None? && pads[0].pos == start && pads[0].len == cap - Off(cap, start) < need
    && tail == start + pads[0].len && Off(cap, tail) == 0
  }

  /** Where the loop of put stands: `n` records removed, `pads` written, nothing else changed. */
  ghost predicate Progress(cap: nat, policy: Policy, before: seq<Rec>, head0: nat, start: nat, need: nat,
                           n: nat, pads: seq<Rec>, recs: seq<Rec>, head: nat, tail: nat, removed: int)
    requires cap > 0
  {
    && n <= |before| && recs == before[n..] + pads && removed == |Messages(before[..n])|
    && (n > 0 ==> policy == Overwrite && tail + need > before[n - 1].pos + cap)
    && (n == 0 ==> head == head0)
    && (if pads == [] then tail == start
        else PaddedFor(cap, start, need, pads, tail) && (n == 0 ==> tail <= head0 + cap))
  }

  lemma NoProgress(cap: nat, policy: Policy, recs: seq<Rec>, head: nat, tail: nat, need: nat, over: nat)
    requires cap > 0
    ensures Progress(cap, policy, recs, head, tail, need, 0, [], recs, head, tail, over - over)
  {
    assert recs[..0] == [] && recs[0..] + [] == recs;
  }

  lemma PadStep(cap: nat, policy: Policy, before: seq<Rec>, head0: nat, start: nat, need: nat, n: nat, pads: seq<Rec>,
                mid: seq<Rec>, head: nat, tail: nat, recs: seq<Rec>, removed: int)
    requires cap > 0 && Progress(cap, policy, before, head0, start, need, n, pads, mid, head, tail, removed)
    requires cap - Off(cap, tail) < need <= cap && tail + (cap - Off(cap, tail)) <= head + cap
    requires Added(mid, recs, None, tail, cap - Off(cap, tail))
    ensures |recs| > 0 && Off(cap, tail + (cap - Off(cap, tail))) == 0
    ensures Progress(cap, policy, before, head0, start, need, n, [recs[|recs| - 1]], recs, head,
                     tail + (cap - Off(cap, tail)), removed)
  {
    OffStep(cap, tail, cap - Off(cap, tail));
    assert before[n..] + [] == before[n..];
    assert recs == recs[..|mid|] + [recs[|mid|]];
  }

  /** Where tail stands after a put. A record that does not fit in front of the boundary goes
      behind a pad up to it, and one with no room for a header behind it is extended to it; a
      record that is refused may leave the pad. */
  function TailAfter(cap: nat, head: nat, tail: nat, need: nat, stored: bool, closed: bool): nat
    requires cap > 0 && head <= tail <= head + cap
  {
    var contig, free := cap - tail % cap, cap - (tail - head);
    tail + if stored then
             if contig < need then contig + need else if contig - need < 56 then contig else need
           else if !closed && contig < need && contig <= free then contig else 0
  }

  /** What a put comes to: `n` of the oldest records were removed, only under Overwrite and
      only as many as it takes, at most one pad was written, and then the record if there
      was, or could be made, room for it. */
  ghost predicate PutOk(cap: nat, policy: Policy, closed: bool, head: nat, tail: nat, before: seq<Rec>, m: Message,
                        rc: PutResult, n: nat, pads: seq<Rec>, tail': nat, after: seq<Rec>)
    requires cap > 0 && head <= tail <= head + cap
  {
    && rc == (if closed then Dropped
              else if policy == Overwrite || Accepts(cap, head, tail, MessageLen(m)) then Stored
              else if policy == Wait then Waits else Dropped)
    && (closed ==> after == before)
    && Becomes(before, n, pads, rc == Stored, m, after) && |pads| <= 1
    && (n > 0 ==> rc == Stored && policy == Overwrite && tail' > before[n - 1].pos + cap)
    && tail' == TailAfter(cap, head, tail, MessageLen(m), rc == Stored, closed)
  }

  lemma RefusedPut(cap: nat, policy: Policy, closed: bool, before: seq<Rec>, head0: nat, start: nat, m: Message,
                   rc: PutResult, n: nat, pads: seq<Rec>, recs: seq<Rec>, head: nat, tail: nat, removed: int)
    requires cap > 0 && MessageOk(cap, m) && head <= tail <= head + cap && head0 <= start <= head0 + cap
    requires Progress(cap, policy, before, head0, start, MessageLen(m), n, pads, recs, head, tail, removed)
    requires if closed then n == 0 && pads == [] && rc == Dropped
             else policy != Overwrite && rc == if policy == Wait then Waits else Dropped
    requires var free, contig := cap - (tail - head), cap - Off(cap, tail); var need := MessageLen(m);
             !closed ==> if contig < need then free < contig else free < need
    ensures PutOk(cap, policy, closed, head0, start, before, m, rc, n, pads, tail, recs)
    ensures removed == |Messages(before[..n])|
  {
    NeedFits(cap, m);
    hide MessageOk, MessageLen, Messages;
    OffIsRemainder(cap, start);
    assert before[0..] + [] == before;
  }

  lemma StoredPut(cap: nat, policy: Policy, before: seq<Rec>, head0: nat, start: nat, m: Message, n: nat,
                  pads: seq<Rec>, recs: seq<Rec>, head: nat, tail: nat, after: seq<Rec>, tail': nat, removed: int)
    requires cap > 0 && MessageOk(cap, m) && head <= tail <= head + cap && head0 <= start <= head0 + cap
    requires Progress(cap, policy, before, head0, start, MessageLen(m), n, pads, recs, head, tail, removed)
    requires var free, contig := cap - (tail - head), cap - Off(cap, tail); var need := MessageLen(m);
             need <= contig && need <= free && tail' == tail + if contig - need < HDR then contig else need
    requires |after| > 0 && after[|after| - 1].msg == Some(m) && after[..|after| - 1] == recs
    ensures PutOk(cap, policy, false, head0, start, before, m, Stored, n, pads, tail', after)
    ensures removed == |Messages(before[..n])|
  {
    NeedFits(cap, m);
    hide MessageOk, MessageLen, Messages;
    OffIsRemainder(cap, start);
  }

  lemma PutMeans(cap: nat, policy: Policy, closed: bool, head: nat, tail: nat, before: seq<Rec>, m: Message,
                 rc: PutResult, n: nat, pads: seq<Rec>, tail': nat, after: seq<Rec>)
    requires cap > 0 && head <= tail <= head + cap
    requires PutOk(cap, policy, closed, head, tail, before, m, rc, n, pads, tail', after)
    ensures n <= |before| && |Messages(before[..n])| <= |Messages(before)|
    ensures Messages(after) == Messages(before)[|Messages(before[..n])|..] + if rc == Stored then [m] else []
    ensures !closed && Accepts(cap, head, tail, MessageLen(m)) ==> rc == Stored
  {
    hide Accepts, TailAfter, Messages;
    PutQueue(before, n, pads, after, rc == Stored, m);
  }

  lemma SitedTotal(cap: nat, tail: nat, need: nat, total: nat)
    requires cap > 0 && HDR <= need <= cap - Off(cap, tail)
    requires total == if cap - Off(cap, tail) - need < HDR then cap - Off(cap, tail) else need
    ensures Sited(cap, tail, total) && need <= total
  {
  }

  lemma NeedFits(cap: nat, m: Message)
    requires MessageOk(cap, m)
    ensures HDR <= MessageLen(m) && 2 * MessageLen(m) <= cap
  {
  }

  /** Making room only ever removes records that were there before the put: a pad written
      for it is never reached, because half the ring is free before it. */
  lemma Removed(cap: nat, before: seq<Rec>, n: nat, pads: seq<Rec>, mid: seq<Rec>, k: nat, after: seq<Rec>,
                start: nat, tail: nat, need: nat)
    requires cap > 0 && n <= |before| && mid == before[n..] + pads && k <= |mid| && after == mid[k..] && 2 * need <= cap
    requires pads == [] || PaddedFor(cap, start, need, pads, tail)
    requires k > 0 ==> tail + need > mid[k - 1].pos + cap
    ensures n + k <= |before| && after == before[n + k..] + pads
    ensures k > 0 ==> mid[k - 1] == before[n + k - 1]
    ensures |Messages(before[..n + k])| == |Messages(before[..n])| + |Messages(mid[..k])|
  {
    assert |mid| > |before| - n ==> mid[|before| - n] == pads[0];
    assert before[n..][..k] == mid[..k];
    assert before[..n + k] == before[..n] + mid[..k];
    MessagesConcat(before[..n], mid[..k]);
  }

  lemma RemoveStep(cap: nat, policy: Policy, before: seq<Rec>, head0: nat, start: nat, need: nat, n: nat,
                   pads: seq<Rec>, mid: seq<Rec>, h: nat, tail: nat, k: nat, recs: seq<Rec>, head: nat,
                   removed: int, more: int)
    requires cap > 0 && Progress(cap, policy, before, head0, start, need, n, pads, mid, h, tail, removed)
    requires k <= |mid| && recs == mid[k..] && 2 * need <= cap && policy == Overwrite && k > 0
    requires tail + need > mid[k - 1].pos + cap && more == |Messages(mid[..k])|
    ensures Progress(cap, policy, before, head0, start, need, n + k, pads, recs, head, tail, removed + more)
  {
    Removed(cap, before, n, pads, mid, k, recs, start, tail, need);
  }

  lemma NoMessages()
    ensures Messages([]) == []
  {
  }

  lemma {:induction false} MessagesGrow(recs: seq<Rec>, n: nat)
    requires n < |recs|
    ensures |Messages(recs[..n + 1])| == |Messages(recs[..n])| + if recs[n].msg.Some? then 1 else 0
    ensures recs[n..][1..] == recs[n + 1..] && recs[n..][0] == recs[n]
  {
    assert recs[..n + 1] == recs[..n] + [recs[n]];
    MessagesConcat(recs[..n], [recs[n]]);
  }

  lemma StoreTwice(m0: seq<byte>, off: nat, a: seq<byte>, m1: seq<byte>, b: seq<byte>, m2: seq<byte>)
    requires Stores(m0, off, a, m1) && Stores(m1, off + |a|, b, m2)
    ensures Stores(m0, off, a + b, m2)
  {
    SpliceTwice(m0, off, a, b);
  }

  /** Six stores one after another are one store of the joined bytes. */
  lemma SpliceChain(off: nat, m0: seq<byte>, h: seq<byte>, m1: seq<byte>, p1: seq<byte>, m2: seq<byte>, p2: seq<byte>,
                    m3: seq<byte>, p3: seq<byte>, m4: seq<byte>, p4: seq<byte>, m5: seq<byte>, p5: seq<byte>,
                    m6: seq<byte>)
    requires Stores(m0, off, h, m1) && Stores(m1, off + |h|, p1, m2) && Stores(m2, off + |h| + |p1|, p2, m3)
    requires Stores(m3, off + |h| + |p1| + |p2|, p3, m4) && Stores(m4, off + |h| + |p1| + |p2| + |p3|, p4, m5)
    requires Stores(m5, off + |h| + |p1| + |p2| + |p3| + |p4|, p5, m6)
    ensures Stores(m0, off, h + (p1 + (p2 + (p3 + (p4 + p5)))), m6)
  {
    hide Stores;
    var o1 := off + |h|;
    var o2 := o1 + |p1|;
    var o3 := o2 + |p2|;
    var o4 := o3 + |p3|;
    StoreTwice(m4, o4, p4, m5, p5, m6);
    StoreTwice(m3, o3, p3, m4, p4 + p5, m6);
    StoreTwice(m2, o2, p2, m3, p3 + (p4 + p5), m6);
    StoreTwice(m1, o1, p1, m2, p2 + (p3 + (p4 + p5)), m6);
    StoreTwice(m0, off, h, m1, p1 + (p2 + (p3 + (p4 + p5))), m6);
  }
}
