/** The second-level sink queue: producers pack events into a byte ring without blocking,
    one worker sweeps everything queued into a linear copy and decodes it in batches. Each
    method body is one critical section of the queue mutex. */
module SinkQueue {
  import opened Bytes
  import opened Options
  import opened RingLayout
  import opened SinkRecord

  /** The `n` bytes from `head` on, linearised as the worker's sweep does. */
  function Linear(cap: nat, mem: seq<byte>, head: nat, n: nat): (s: seq<byte>)
    requires cap > 0 && |mem| == cap && n <= cap
    ensures |s| == n
  {
    var start := Off(cap, head);
    if start + n > cap then mem[start..] + mem[..n - (cap - start)] else mem[start..start + n]
  }

  lemma {:induction false} OffAdd(cap: nat, head: nat, n: nat)
    requires cap > 0 && n <= cap
    ensures Off(cap, head + n) == if Off(cap, head) + n < cap then Off(cap, head) + n else Off(cap, head) + n - cap
  {
    if head >= cap {
      OffAdd(cap, head - cap, n);
    }
  }

  /** Bytes stored at tail without crossing the boundary extend the linear view. */
  lemma LinearAppend(cap: nat, mem: seq<byte>, head: nat, tail: nat, bs: seq<byte>, mem': seq<byte>)
    requires cap > 0 && |mem| == cap && head <= tail && tail - head + |bs| <= cap
    requires Stores(mem, Off(cap, tail), bs, mem')
    ensures Linear(cap, mem', head, tail - head + |bs|) == Linear(cap, mem, head, tail - head) + bs
  {
    var n := tail - head;
    OffAdd(cap, head, n);
    var start := Off(cap, head);
    if start + n < cap {
      AppendBefore(cap, mem, start, n, bs);
    } else {
      AppendAfter(cap, mem, start, n, bs);
    }
  }

  lemma AppendBefore(cap: nat, mem: seq<byte>, start: nat, n: nat, bs: seq<byte>)
    requires |mem| == cap && start + n + |bs| <= cap
    ensures Splice(mem, start + n, bs)[start..start + n + |bs|] == mem[start..start + n] + bs
  {
  }

  lemma AppendAfter(cap: nat, mem: seq<byte>, start: nat, n: nat, bs: seq<byte>)
    requires |mem| == cap && start < cap <= start + n && n + |bs| <= cap
    ensures Splice(mem, start + n - cap, bs)[start..] == mem[start..]
    ensures Splice(mem, start + n - cap, bs)[..n + |bs| - (cap - start)] == mem[..n - (cap - start)] + bs
  {
  }

  // ---------------------------------------------------------------- where items lie

  /** No item crosses the physical boundary. */
  predicate Unsplit(cap: nat, head: nat, items: seq<Item>)
    requires cap > 0
    decreases items
  {
    items == [] ||
    (Off(cap, head) + |ItemBytes(items[0])| <= cap && Unsplit(cap, head + |ItemBytes(items[0])|, items[1..]))
  }

  lemma {:induction false} UnsplitAppend(cap: nat, head: nat, items: seq<Item>, i: Item)
    requires cap > 0 && Unsplit(cap, head, items)
    requires Off(cap, head + |Stream(items)|) + |ItemBytes(i)| <= cap
    ensures Unsplit(cap, head, items + [i])
    decreases items
  {
    hide ItemBytes;
    if items == [] {
      assert (items + [i])[1..] == [];
    } else {
      UnsplitAppend(cap, head + |ItemBytes(items[0])|, items[1..], i);
      assert (items + [i])[1..] == items[1..] + [i];
    }
  }

  predicate ItemsOk(items: seq<Item>) { forall i | i in items && i.Record? :: EventOk(i.e) }

  // ---------------------------------------------------------------- acceptance

  /** When a push of `need` bytes is accepted: there is room in front of the boundary with
      a word to spare, or the boundary is exactly one bridge pad away. */
  predicate Accepts(cap: nat, head: nat, tail: nat, need: nat)
    requires cap > 0 && head <= tail <= head + cap
  {
    var contig, free := cap - Off(cap, tail), cap - (tail - head);
    || (contig >= need + 4 && free >= need)
    || (contig == 4 && free >= need + 4)
  }

  /** Where a push that is not accepted leaves tail: a bridge pad may have been written. */
  function Rejected(cap: nat, head: nat, tail: nat, need: nat): nat
    requires cap > 0 && head <= tail <= head + cap
  {
    var contig, free := cap - Off(cap, tail), cap - (tail - head);
    if 4 <= contig < need + 4 && free >= contig then tail + 4 else tail
  }

  class Queue {
    const cap: nat
    const buf: array<byte>
    var head: nat
    var tail: nat
    var stop: bool
    var exited: bool
    /** What is queued, all events ever accepted, those handed to the sink, and those the
        worker swept but did not decode. */
    ghost var items: seq<Item>
    ghost var accepted: seq<Event>
    ghost var emitted: seq<Event>
    ghost var lost: seq<Event>

    ghost predicate Valid()
      reads this, buf
    {
      && cap > 0 && buf.Length == cap && head <= tail <= head + cap
      && Linear(cap, buf[..], head, tail - head) == Stream(items)
      && Unsplit(cap, head, items) && ItemsOk(items)
      && accepted == emitted + lost + Events(items) && (!stop ==> lost == [])
    }

    constructor (capacity: nat)
      requires capacity > 0
      ensures Valid() && cap == capacity && fresh(buf) && head == tail == 0 && !stop && accepted == emitted == []
    {
      cap := capacity;
      buf := new byte[capacity];
      head, tail, stop, exited, items, accepted, emitted, lost := 0, 0, false, false, [], [], [], [];
    }

    /** Four zero bytes in front of the boundary. */
    method Bridge()
      requires Valid() && tail + 4 <= head + cap && Off(cap, tail) + 4 <= cap
      modifies this`tail, this`items, buf
      ensures Valid() && tail == old(tail) + 4
    {
      hide Linear, Unsplit, Stores, Stream, Events, ItemsOk;
      ghost var mem := buf[..];
      OffIsRemainder(cap, tail);
      CopyInto(buf, tail % cap, [0, 0, 0, 0]);
      Appended(cap, mem, head, tail, items, Pad, [0, 0, 0, 0], buf[..]);
      tail, items := tail + 4, items + [Pad];
    }

    method Write(e: Event)
      requires Valid() && EventOk(e) && tail + PackedSize(e) <= head + cap && Off(cap, tail) + PackedSize(e) <= cap
      modifies this`tail, this`items, this`accepted, buf
      ensures Valid() && tail == old(tail) + PackedSize(e) && accepted == old(accepted) + [AsPacked(e)]
    {
      hide Linear, Unsplit, Stores, Header, Body, EventOk, Stream, Events, ItemsOk;
      ghost var mem := buf[..];
      OffIsRemainder(cap, tail);
      var bs := Packed(e);
      CopyInto(buf, tail % cap, bs);
      Appended(cap, mem, head, tail, items, Record(e), bs, buf[..]);
      accepted := accepted + [AsPacked(e)];
      tail, items := tail + |bs|, items + [Record(e)];
    }

    /** Shutting down: hpu_sink_queue_destroy asks the worker to stop. */
    method RequestStop()
      requires Valid()
      modifies this`stop
      ensures Valid() && stop
    {
      hide Linear, Unsplit, Stream, Events, ItemsOk;
      stop := true;
    }

    /** hpu_sink_queue_push; a queue that is shutting down refuses everything. */
    method Push(e: Event) returns (ok: bool)
      requires Valid() && EventOk(e)
      modifies this`tail, this`items, this`accepted, buf
      ensures Valid()
      ensures var need, contig := PackedSize(e), cap - old(tail) % cap; var free := cap - (old(tail) - old(head));
              && (ok <==> !stop && ((need + 4 <= contig && need <= free) || (contig == 4 && need + 4 <= free)))
              && tail == old(tail) + if ok then need + (if contig == 4 then 4 else 0)
                                     else if !stop && 4 <= contig < need + 4 && contig <= free then 4 else 0
      ensures accepted == old(accepted) + if ok then [AsPacked(e)] else []
      ensures ok <==> !stop && Accepts(cap, old(head), old(tail), PackedSize(e))
      ensures !ok && !stop ==> tail == Rejected(cap, old(head), old(tail), PackedSize(e))
    {
      hide Linear, Unsplit, Stores, Body, EventOk, ItemsOk;
      var need := PackedSize(e);
      if stop {
        return false;
      }
      OffIsRemainder(cap, tail);
      var contig := cap - tail % cap;
      if contig < need + 4 {
        if cap - (tail - head) < contig {
          return false;
        }
        if contig >= 4 {
          OffAdd(cap, tail, 4);
          Bridge();
          contig := contig - 4;
        }
      }
      if cap - (tail - head) < need {
        return false;
      }
      OffIsRemainder(cap, tail);
      if tail % cap + need > cap {
        return false;
      }
      Write(e);
      ok := true;
    }

    /** The sweep under the lock: everything queued, in two parts at the boundary. */
    method Collect(sweep: array<byte>) returns (avail: nat)
      requires Valid() && sweep != buf && sweep.Length == cap
      modifies this`head, sweep
      ensures head == tail == old(tail) && avail == old(tail) - old(head) && sweep[..avail] == Stream(items)
    {
      hide Unsplit, Stream, Events, ItemsOk, Splice;
      avail := tail - head;
      if avail > 0 {
        OffIsRemainder(cap, head);
        var start := head % cap;
        ghost var s0 := sweep[..];
        if start + avail > cap {
          var first := cap - start;
          CopyInto(sweep, 0, buf[start..]);
          CopyInto(sweep, first, buf[..avail - first]);
          TwoParts(s0, buf[start..], buf[..avail - first]);
        } else {
          CopyInto(sweep, 0, buf[start..start + avail]);
          SplicePrefix(s0, buf[start..start + avail]);
        }
      }
      head := head + avail;
    }

    /** One turn of the worker: sweep, then decode and emit in batches. When stop was
        requested the worker exits right after the sweep. */
    method Turn(sweep: array<byte>, batchMax: nat) returns (batches: seq<seq<Event>>)
      requires Valid() && sweep != buf && sweep.Length == cap && batchMax > 0
      modifies this`head, this`exited, this`items, this`emitted, this`lost, sweep
      ensures Valid() && head == tail == old(tail) && items == []
      ensures !stop ==> Flat(batches) == Events(old(items)) && emitted == old(emitted) + Flat(batches)
      ensures forall b | b in batches :: 0 < |b| <= batchMax
      ensures forall i | 0 <= i < |batches| - 1 :: |batches[i]| == batchMax
      ensures stop ==> exited && batches == [] && emitted == old(emitted) && lost == old(lost) + Events(old(items))
    {
      hide Unsplit, ItemsOk, Linear, Stream, Events, Flat;
      var avail := Collect(sweep);
      ghost var swept := items;
      items := [];
      NothingQueued(cap, buf[..], head);
      Settles(emitted, lost, Events(swept));
      if stop && tail == head {
        exited, lost := true, lost + Events(swept);
        return [];
      }
      batches := DecodeSweep(sweep, avail, batchMax, swept);
      emitted := emitted + Flat(batches);
    }
  }

  lemma TwoParts(s: seq<byte>, a: seq<byte>, b: seq<byte>)
    requires |a| + |b| <= |s|
    ensures Splice(Splice(s, 0, a), |a|, b)[..|a| + |b|] == a + b
  {
  }

  lemma Settles(emitted: seq<Event>, lost: seq<Event>, events: seq<Event>)
    ensures emitted + lost + events == emitted + (lost + events) + []
    ensures lost == [] ==> emitted + lost + events == (emitted + events) + lost + []
  {
  }

  lemma NothingQueued(cap: nat, mem: seq<byte>, head: nat)
    requires cap > 0 && |mem| == cap
    ensures Linear(cap, mem, head, 0) == Stream([]) && Unsplit(cap, head, []) && ItemsOk([]) && Events([]) == []
  {
  }

  /** The batches one after another. */
  function Flat(batches: seq<seq<Event>>): seq<Event> {
    if batches == [] then [] else Flat(batches[..|batches| - 1]) + batches[|batches| - 1]
  }

  lemma FlatAppend(batches: seq<seq<Event>>, b: seq<Event>)
    ensures Flat(batches + [b]) == Flat(batches) + b
  {
    assert (batches + [b])[..|batches|] == batches;
  }

  /** What the decode loop reads at the front of the stream. */
  lemma FrontItem(mem: seq<byte>, off: nat, avail: nat, rest: seq<Item>)
    requires off + SQ_HDR <= avail <= |mem| && mem[off..avail] == Stream(rest) && ItemsOk(rest)
    ensures rest != [] && off + |ItemBytes(rest[0])| <= avail && ItemsOk(rest[1..])
    ensures mem[off + |ItemBytes(rest[0])|..avail] == Stream(rest[1..])
    ensures RecLen(mem[off..]) == if rest[0].Pad? then 0 else PackedSize(rest[0].e)
    ensures rest[0].Record? ==> Decode(mem[off..]) == Some(AsPacked(rest[0].e))
  {
    hide ItemsOk, Decode, RecLen, Packed;
    var bs := ItemBytes(rest[0]);
    var more := Stream(rest[1..]);
    ItemsRest(rest);
    assert mem[off..avail] == bs + more;
    SplitAt(mem, off, avail, bs, more);
    if rest[0].Pad? {
      PadIsZero(mem[off..]);
    } else {
      DecodePacked(rest[0].e, more + mem[avail..], mem[off..]);
    }
  }

  lemma ItemsRest(items: seq<Item>)
    requires items != [] && ItemsOk(items)
    ensures ItemsOk(items[1..]) && (items[0].Record? ==> EventOk(items[0].e))
  {
  }

  lemma SplitAt(mem: seq<byte>, off: nat, avail: nat, bs: seq<byte>, more: seq<byte>)
    requires off <= avail <= |mem| && mem[off..avail] == bs + more
    ensures mem[off..] == bs + (more + mem[avail..]) && mem[off + |bs|..avail] == more
    ensures |bs| == 4 ==> mem[off..][..4] == bs
  {
    assert mem[off..] == mem[off..avail] + mem[avail..];
  }

  lemma EventsFront(rest: seq<Item>)
    requires rest != []
    ensures Events(rest) == (if rest[0].Record? then [AsPacked(rest[0].e)] else []) + Events(rest[1..])
  {
  }

  /** One turn of the inner decode loop. */
  lemma DecodeStep(mem: seq<byte>, off: nat, avail: nat, rest: seq<Item>)
    requires off + SQ_HDR <= avail <= |mem| && mem[off..avail] == Stream(rest) && ItemsOk(rest)
    ensures rest != [] && ItemsOk(rest[1..])
    ensures RecLen(mem[off..]) == 0 ==>
              mem[off + 4..avail] == Stream(rest[1..]) && Events(rest) == Events(rest[1..])
    ensures RecLen(mem[off..]) != 0 ==>
              var n := RecLen(mem[off..]);
              && off + n <= avail && mem[off + n..avail] == Stream(rest[1..]) && Decode(mem[off..]).Some?
              && Events(rest) == [Decode(mem[off..]).value] + Events(rest[1..])
  {
    hide Stream, ItemsOk, Events, Decode, RecLen, ItemBytes, AsPacked, PackedSize;
    FrontItem(mem, off, avail, rest);
    FrontSize(rest[0]);
    EventsFront(rest);
    if rest[0].Pad? { assert [] + Events(rest[1..]) == Events(rest[1..]); }
  }

  /** The worker's decode loops over the sweep copy: everything queued comes out, in order,
      in batches of at most batchMax. */
  method DecodeSweep(sweep: array<byte>, avail: nat, batchMax: nat, ghost all: seq<Item>)
    returns (batches: seq<seq<Event>>)
    requires batchMax > 0 && avail <= sweep.Length && sweep[..avail] == Stream(all) && ItemsOk(all)
    ensures Flat(batches) == Events(all) && forall b | b in batches :: 0 < |b| <= batchMax
    ensures forall i | 0 <= i < |batches| - 1 :: |batches[i]| == batchMax
  {
    hide Stream, ItemsOk, Events, Decode, RecLen, Flat;
    var mem := sweep[..];
    var off := 0;
    ghost var rest := all;
    batches := [];
    assert mem[0..avail] == sweep[..avail];
    NothingFlat();
    while off + SQ_HDR <= avail
      invariant off <= avail && mem[off..avail] == Stream(rest) && ItemsOk(rest)
      invariant Flat(batches) + Events(rest) == Events(all)
      invariant forall b | b in batches :: 0 < |b| <= batchMax
      invariant forall i | 0 <= i < |batches| :: |batches[i]| == batchMax || (i == |batches| - 1 && off + SQ_HDR > avail)
      decreases avail - off
    {
      var batch: seq<Event> := [];
      ghost var start := off;
      while |batch| < batchMax && off + SQ_HDR <= avail
        invariant start <= off <= avail && mem[off..avail] == Stream(rest) && ItemsOk(rest)
        invariant Flat(batches) + (batch + Events(rest)) == Events(all)
        invariant |batch| <= batchMax && (batch != [] ==> start < off)
        decreases avail - off
      {
        DecodeStep(mem, off, avail, rest);
        rest := rest[1..];
        var recLen := RecLen(mem[off..]);
        if recLen == 0 {
          off := off + 4;
          continue;
        }
        var decoded := Decode(mem[off..]);
        if decoded.None? {
          break;
        }
        batch := batch + [decoded.value];
        off := off + recLen;
      }
      if batch == [] {
        break;
      }
      FlatAppend(batches, batch);
      batches := batches + [batch];
    }
    ShortIsPads(rest);
  }

  lemma NothingFlat()
    ensures Flat([]) == []
  {
  }

  lemma FrontSize(i: Item)
    ensures |ItemBytes(i)| == if i.Pad? then 4 else PackedSize(i.e)
    ensures i.Record? ==> PackedSize(i.e) >= SQ_HDR
  {
  }

  lemma Appended(cap: nat, mem: seq<byte>, head: nat, tail: nat, items: seq<Item>, i: Item, bs: seq<byte>,
                 mem': seq<byte>)
    requires cap > 0 && |mem| == cap && head <= tail <= head + cap && bs == ItemBytes(i)
    requires Linear(cap, mem, head, tail - head) == Stream(items) && Unsplit(cap, head, items) && ItemsOk(items)
    requires tail + |bs| <= head + cap && Stores(mem, Off(cap, tail), bs, mem') && (i.Record? ==> EventOk(i.e))
    ensures |mem'| == cap && Linear(cap, mem', head, tail + |bs| - head) == Stream(items + [i])
    ensures Unsplit(cap, head, items + [i]) && ItemsOk(items + [i])
    ensures Events(items + [i]) == Events(items) + if i.Record? then [AsPacked(i.e)] else []
  {
    hide Linear, ItemBytes, AsPacked, EventOk, Unsplit, Stream, Events;
    LinearAppend(cap, mem, head, tail, bs, mem');
    StreamAppend(items, i);
    assert head + |Stream(items)| == tail;
    UnsplitAppend(cap, head, items, i);
  }
}
