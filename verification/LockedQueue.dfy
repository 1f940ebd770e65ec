/** What it means for the bytes of the locked ring to hold a queue of records, and the two
    ways the queue changes: a record is appended at tail, the oldest is taken off at head. */
module LockedQueue {
  import opened Bytes
  import opened Options
  import opened RingLayout
  import opened LockedLayout

  /** One record of the ring and the bytes its producer wrote; a pad has no message. */
  datatype Rec = Rec(pos: nat, len: nat, msg: Option<Message>, bytes: seq<byte>)

  function RecMeta(msg: Option<Message>, len: nat): Meta {
    match msg
    case None => PadMeta(len)
    case Some(m) => MetaOf(m, len)
  }

  function RecBytes(msg: Option<Message>, len: nat): seq<byte> {
    match msg
    case None => HeaderBytes(PadMeta(len))
    case Some(m) => MessageBytes(m, len)
  }

  /** Every place a record can start leaves room for a pad header. */
  predicate Fits(cap: nat, pos: nat)
    requires cap > 0
  {
    Off(cap, pos) == 0 || Off(cap, pos) + HDR <= cap
  }

  predicate Sited(cap: nat, pos: nat, len: nat)
    requires cap > 0
  {
    var off := Off(cap, pos);
    HDR <= len && off + len <= cap && (off + len == cap || off + len + HDR <= cap)
  }

  predicate Geometry(cap: nat, r: Rec)
    requires cap > 0
  {
    Sited(cap, r.pos, r.len) && |r.bytes| <= r.len
  }

  predicate Faithful(cap: nat, r: Rec)
    requires cap > 0
  {
    && r.bytes == RecBytes(r.msg, r.len)
    && (r.msg.None? ==> Off(cap, r.pos) + r.len == cap)
    && (r.msg.Some? ==> MessageOk(cap, r.msg.value) && MessageLen(r.msg.value) <= r.len)
  }

  predicate Holds(cap: nat, mem: seq<byte>, r: Rec)
    requires cap > 0
  {
    var off := Off(cap, r.pos);
    off + |r.bytes| <= |mem| && mem[off..off + |r.bytes|] == r.bytes
  }

  /** The records follow one another from head to tail. */
  predicate Laid(recs: seq<Rec>, head: nat, tail: nat) {
    if recs == [] then head == tail
    else recs[0].pos == head && Laid(recs[1..], head + recs[0].len, tail)
  }

  predicate CapacityOk(cap: nat) { 2 * HDR <= cap < TWO32 }

  predicate RingShape(cap: nat, mem: seq<byte>, head: nat, tail: nat, recs: seq<Rec>) {
    && CapacityOk(cap) && |mem| == cap
    && head <= tail <= head + cap && Fits(cap, head) && Fits(cap, tail)
    && Laid(recs, head, tail)
    && (forall r | r in recs :: Geometry(cap, r))
    && (forall r | r in recs :: Holds(cap, mem, r))
  }

  predicate AllFaithful(cap: nat, recs: seq<Rec>)
    requires cap > 0
  {
    forall r | r in recs :: Faithful(cap, r)
  }

  ghost predicate Added(before: seq<Rec>, after: seq<Rec>, msg: Option<Message>, pos: nat, len: nat) {
    && |after| == |before| + 1 && after[..|before|] == before
    && after[|before|].msg == msg && after[|before|].pos == pos && after[|before|].len == len
  }

  /** The queue of messages: what consumers have yet to receive. */
  function Messages(recs: seq<Rec>): seq<Message> {
    if recs == [] then []
    else (if recs[0].msg.Some? then [recs[0].msg.value] else []) + Messages(recs[1..])
  }

  lemma {:induction false} MessagesConcat(a: seq<Rec>, b: seq<Rec>)
    ensures Messages(a + b) == Messages(a) + Messages(b)
  {
    if a == [] {
      assert a + b == b;
    } else {
      MessagesConcat(a[1..], b);
      assert (a + b)[1..] == a[1..] + b;
      var here := if a[0].msg.Some? then [a[0].msg.value] else [];
      var x, y := Messages(a[1..]), Messages(b);
      assert Messages(a + b) == here + (x + y);
      hide Messages;
      assert here + (x + y) == (here + x) + y;
    }
  }

  /** The first `n` records gone, then pads and a message added: what the queue becomes. */
  lemma QueueAfter(before: seq<Rec>, n: nat, pads: seq<Rec>, after: seq<Rec>)
    requires n <= |before| && after == before[n..] + pads && forall r | r in pads :: r.msg.None?
    ensures |Messages(before[..n])| <= |Messages(before)|
    ensures Messages(after) == Messages(before)[|Messages(before[..n])|..]
  {
    assert before[..n] + before[n..] == before;
    MessagesConcat(before[..n], before[n..]);
    MessagesConcat(before[n..], pads);
    OnlyPads(pads);
  }

  lemma {:induction false} OnlyPads(pads: seq<Rec>)
    requires forall r | r in pads :: r.msg.None?
    ensures Messages(pads) == []
  {
    if pads != [] { OnlyPads(pads[1..]); }
  }

  lemma {:induction false} LaidAppend(recs: seq<Rec>, head: nat, tail: nat, r: Rec)
    requires Laid(recs, head, tail) && r.pos == tail
    ensures Laid(recs + [r], head, tail + r.len)
  {
    if recs != [] {
      LaidAppend(recs[1..], head + recs[0].len, tail, r);
      assert (recs + [r])[1..] == recs[1..] + [r];
    } else {
      assert (recs + [r])[1..] == [];
    }
  }

  lemma {:induction false} LaidWithin(recs: seq<Rec>, head: nat, tail: nat, r: Rec)
    requires Laid(recs, head, tail) && r in recs
    ensures head <= r.pos && r.pos + r.len <= tail
  {
    LaidAscends(recs[1..], head + recs[0].len, tail);
    if r != recs[0] { LaidWithin(recs[1..], head + recs[0].len, tail, r); }
  }

  lemma {:induction false} LaidAscends(recs: seq<Rec>, head: nat, tail: nat)
    requires Laid(recs, head, tail)
    ensures head <= tail
  {
    if recs != [] { LaidAscends(recs[1..], head + recs[0].len, tail); }
  }

  lemma SitedFits(cap: nat, pos: nat, len: nat)
    requires CapacityOk(cap) && Sited(cap, pos, len)
    ensures Fits(cap, pos + len)
  {
    OffStep(cap, pos, len);
  }

  function HeaderAt(mem: seq<byte>, off: nat): Meta
    requires off + HDR <= |mem|
  {
    ReadMeta(mem[off..])
  }

  /** The header of a stored record reads back. */
  lemma HeaderIs(cap: nat, mem: seq<byte>, r: Rec)
    requires CapacityOk(cap) && |mem| == cap && Geometry(cap, r) && Holds(cap, mem, r) && Faithful(cap, r)
    ensures Off(cap, r.pos) + HDR <= cap
    ensures HeaderAt(mem, Off(cap, r.pos)) == RecMeta(r.msg, r.len)
  {
    hide ReadMeta, RecBytes, RecMeta, MessageOk;
    var rest := HeldPrefix(cap, mem, r);
    BytesMeta(cap, r.msg, r.len, r.bytes, rest, mem[Off(cap, r.pos)..]);
  }

  lemma HeldPrefix(cap: nat, mem: seq<byte>, r: Rec) returns (rest: seq<byte>)
    requires CapacityOk(cap) && |mem| == cap && Geometry(cap, r) && Holds(cap, mem, r)
    ensures Off(cap, r.pos) + r.len <= cap && mem[Off(cap, r.pos)..] == r.bytes + rest
  {
    rest := mem[Off(cap, r.pos) + |r.bytes|..];
  }

  lemma HeldWithin(mem: seq<byte>, off: nat, end: nat, bs: seq<byte>)
    requires off + |bs| <= end <= |mem| && mem[off..off + |bs|] == bs
    ensures mem[off..end] == bs + mem[off + |bs|..end]
  {
  }

  lemma BytesMeta(cap: nat, msg: Option<Message>, len: nat, bs: seq<byte>, rest: seq<byte>, x: seq<byte>)
    requires CapacityOk(cap) && bs == RecBytes(msg, len) && x == bs + rest
    requires len <= cap && (msg.Some? ==> MessageOk(cap, msg.value))
    ensures |x| >= HDR && ReadMeta(x) == RecMeta(msg, len)
  {
    Widths();
    match msg
    case None => HeaderRoundTrip(PadMeta(len), rest);
    case Some(m) => MetaReadsBack(cap, m, len, rest, x);
  }

  /** What the ring's loops look at in a header: the length and the pad flag. */
  lemma MetaTells(cap: nat, msg: Option<Message>, len: nat)
    requires CapacityOk(cap) && len <= cap && (msg.Some? ==> MessageOk(cap, msg.value))
    ensures RecMeta(msg, len).totalLen == len && (IsPad(RecMeta(msg, len)) <==> msg.None?)
  {
    Widths();
    match msg
    case None =>
    case Some(m) => MetaOfOk(cap, m, len);
  }

  lemma FrontMeta(cap: nat, mem: seq<byte>, r: Rec)
    requires CapacityOk(cap) && |mem| == cap && Geometry(cap, r) && Holds(cap, mem, r) && Faithful(cap, r)
    ensures Off(cap, r.pos) + HDR <= cap
    ensures HeaderAt(mem, Off(cap, r.pos)).totalLen == r.len
    ensures IsPad(HeaderAt(mem, Off(cap, r.pos))) <==> r.msg.None?
  {
    MetaTells(cap, r.msg, r.len);
    hide ReadMeta, RecBytes, RecMeta, IsPad;
    HeaderIs(cap, mem, r);
  }

  lemma MessageRecOk(cap: nat, r: Rec, m: Message, h: seq<byte>)
    requires CapacityOk(cap) && Sited(cap, r.pos, r.len) && MessageOk(cap, m) && MessageLen(m) <= r.len
    requires h == HeaderBytes(MetaOf(m, r.len)) && r.msg == Some(m) && r.bytes == h + Payload(m)
    ensures Geometry(cap, r) && Faithful(cap, r) && Off(cap, r.pos) + |r.bytes| <= cap
  {
  }

  lemma PadRecOk(cap: nat, r: Rec)
    requires CapacityOk(cap) && Fits(cap, r.pos) && Off(cap, r.pos) + r.len == cap
    requires r.msg.None? && r.bytes == HeaderBytes(PadMeta(r.len))
    ensures Geometry(cap, r) && Faithful(cap, r)
  {
  }

  lemma Undisturbed(cap: nat, mem: seq<byte>, r: Rec, n: Rec)
    requires CapacityOk(cap) && |mem| == cap && Geometry(cap, r) && Geometry(cap, n) && Holds(cap, mem, r)
    requires r.pos + r.len <= n.pos && n.pos + n.len <= r.pos + cap
    ensures Holds(cap, Splice(mem, Off(cap, n.pos), n.bytes), r)
  {
    WindowDisjoint(cap, r.pos, r.len, n.pos, n.len);
    var off := Off(cap, r.pos);
    SpliceElsewhere(mem, Off(cap, n.pos), n.bytes, off, off + |r.bytes|);
  }

  lemma AppendShape(cap: nat, mem: seq<byte>, head: nat, tail: nat, recs: seq<Rec>, r: Rec, mem': seq<byte>)
    requires RingShape(cap, mem, head, tail, recs)
    requires r.pos == tail && Geometry(cap, r) && tail + r.len <= head + cap
    requires Stores(mem, Off(cap, tail), r.bytes, mem')
    ensures RingShape(cap, mem', head, tail + r.len, recs + [r])
  {
    SitedFits(cap, tail, r.len);
    LaidAppend(recs, head, tail, r);
    forall x | x in recs + [r] ensures Geometry(cap, x) && Holds(cap, mem', x) {
      if x in recs {
        LaidWithin(recs, head, tail, x);
        Undisturbed(cap, mem, x, r);
      } else {
        SpliceReads(mem, Off(cap, tail), r.bytes);
      }
    }
  }

  /** Writing a record at tail appends it and leaves every unread record as it was. */
  lemma Append(cap: nat, mem: seq<byte>, head: nat, tail: nat, recs: seq<Rec>, r: Rec, mem': seq<byte>)
    requires RingShape(cap, mem, head, tail, recs) && AllFaithful(cap, recs) && Faithful(cap, r)
    requires r.pos == tail && Geometry(cap, r) && tail + r.len <= head + cap
    requires Stores(mem, Off(cap, tail), r.bytes, mem')
    ensures RingShape(cap, mem', head, tail + r.len, recs + [r]) && AllFaithful(cap, recs + [r])
    ensures Added(recs, recs + [r], r.msg, r.pos, r.len)
  {
    AppendShape(cap, mem, head, tail, recs, r, mem');
    AppendFaithful(cap, recs, r);
    hide RingShape, AllFaithful, Faithful, Stores, Geometry;
  }

  lemma AppendFaithful(cap: nat, recs: seq<Rec>, r: Rec)
    requires cap > 0 && AllFaithful(cap, recs) && Faithful(cap, r)
    ensures AllFaithful(cap, recs + [r])
  {
    hide Faithful;
    forall x | x in recs + [r] ensures Faithful(cap, x) {
      if x !in recs { assert x == r; }
    }
  }

  lemma TakeFront(cap: nat, mem: seq<byte>, head: nat, tail: nat, recs: seq<Rec>)
    requires RingShape(cap, mem, head, tail, recs) && head != tail
    ensures recs != [] && recs[0].pos == head && Geometry(cap, recs[0]) && Holds(cap, mem, recs[0])
    ensures head + recs[0].len <= tail
    ensures RingShape(cap, mem, head + recs[0].len, tail, recs[1..])
  {
    assert Geometry(cap, recs[0]);
    SitedFits(cap, recs[0].pos, recs[0].len);
    LaidAscends(recs[1..], head + recs[0].len, tail);
  }

  /** What the ring's loops read at head, where the oldest record is. */
  lemma Oldest(cap: nat, mem: seq<byte>, head: nat, tail: nat, recs: seq<Rec>)
    requires RingShape(cap, mem, head, tail, recs) && AllFaithful(cap, recs) && head != tail
    ensures recs != [] && head + recs[0].len <= tail && Off(cap, head) + HDR <= cap
    ensures HeaderAt(mem, Off(cap, head)).totalLen == recs[0].len
    ensures IsPad(HeaderAt(mem, Off(cap, head))) <==> recs[0].msg.None?
    ensures RingShape(cap, mem, head + recs[0].len, tail, recs[1..]) && AllFaithful(cap, recs[1..])
    ensures recs[0].pos == head && Geometry(cap, recs[0]) && Holds(cap, mem, recs[0]) && Faithful(cap, recs[0])
  {
    TakeFront(cap, mem, head, tail, recs);
    assert Faithful(cap, recs[0]);
    hide HeaderAt, IsPad, Faithful, Geometry, Holds;
    FrontMeta(cap, mem, recs[0]);
  }

  // ---------------------------------------------------------------- room for a put

  /** Where a record needing `need` bytes goes: the length to encode, or None for a pad
      first. */
  predicate Accepts(cap: nat, head: nat, tail: nat, need: nat)
    requires cap > 0 && head <= tail <= head + cap
  {
    var free, contig := cap - (tail - head), cap - Off(cap, tail);
    if contig >= need then free >= need else free >= contig + need
  }

  /** The subtle space test: `need` is tested against the free space but the record may be
      extended to the boundary. No header fits in the extension, so head cannot be there. */
  lemma ExtensionIsFree(cap: nat, head: nat, tail: nat, need: nat)
    requires CapacityOk(cap) && Fits(cap, head) && head <= tail <= head + cap
    requires var contig := cap - Off(cap, tail);
             need <= contig && contig - need < HDR && need <= cap - (tail - head)
    ensures cap - Off(cap, tail) <= cap - (tail - head)
  {
    // otherwise head would lie `free` bytes ahead of tail with no boundary between
    if cap - (tail - head) < cap - Off(cap, tail) {
      OffStep(cap, tail, cap - (tail - head));
      OffShift(cap, head);
    }
  }

  lemma OffShift(cap: nat, pos: nat)
    requires cap > 0
    ensures Off(cap, pos + cap) == Off(cap, pos)
  {
  }

  /** A drained ring accepts every record of at most half its size. */
  lemma DrainedAccepts(cap: nat, pos: nat, m: Message)
    requires CapacityOk(cap) && MessageOk(cap, m)
    ensures Accepts(cap, pos, pos, MessageLen(m))
  {
  }

  // ---------------------------------------------------------------- what get returns

  /** The view shows the message: strings and header values exactly, the field region
      with possible trailing bytes. */
  predicate Shows(v: View, m: Message) {
    && v.category == m.category && v.file == m.file && v.func == m.func && v.text == m.text
    && (if m.fieldCount > 0 then m.fields <= v.fields else v.fields == [])
    && v.meta.tid == m.tid && v.meta.realtime == m.realtime && v.meta.mono == m.mono && v.meta.line == m.line
    && v.meta.levelFlags == m.level + 256 * m.recFlags && v.meta.fieldCount == m.fieldCount
  }

  lemma FrontShows(cap: nat, mem: seq<byte>, r: Rec)
    requires CapacityOk(cap) && |mem| == cap && Geometry(cap, r) && Holds(cap, mem, r) && Faithful(cap, r)
    requires r.msg.Some?
    ensures var v := ParseView(mem[Off(cap, r.pos)..Off(cap, r.pos) + r.len]); v.Some? && Shows(v.value, r.msg.value)
  {
    hide ReadMeta, ParseView, MessageBytes, MessageOk, Shows, Off;
    var off := Off(cap, r.pos);
    var extra := mem[off + |r.bytes|..off + r.len];
    hide Sited;
    HeldWithin(mem, off, off + r.len, r.bytes);
    BytesShow(cap, r.msg.value, r.len, r.bytes, extra, mem[off..off + r.len]);
  }

  lemma BytesShow(cap: nat, m: Message, len: nat, bs: seq<byte>, extra: seq<byte>, x: seq<byte>)
    requires CapacityOk(cap) && MessageOk(cap, m) && bs == MessageBytes(m, len) && x == bs + extra && |x| == len <= cap
    ensures len >= HDR
    ensures var v := ParseView(x); v.Some? && Shows(v.value, m)
  {
    Widths();
    ParseReadsMessage(cap, m, len, extra, x);
  }
}
