/** The byte layout of the locked ring: how a message becomes a record and is read back,
    and what it means for a byte ring to hold a queue of records. */
module LockedLayout {
  import opened Bytes
  import opened Options

  const HDR: nat := 56
  const WIDTHS: seq<nat> := [8, 8, 8, 8, 4, 4, 4, 4, 2, 2, 2, 2]

  datatype Meta = Meta(commit: nat, tid: nat, realtime: nat, mono: nat, totalLen: nat, msgLen: nat, line: nat,
                       levelFlags: nat, categoryLen: nat, fileLen: nat, funcLen: nat, fieldCount: nat)

  /** The producer's descriptor of one record. Signed times are given as their 64 bits. */
  datatype Message = Message(level: byte, recFlags: byte, category: seq<byte>, file: seq<byte>, func: seq<byte>,
                             line: nat, tid: nat, realtime: nat, mono: nat, text: seq<byte>,
                             fields: seq<byte>, fieldCount: nat)

  /** What the consumer sees; an empty part stands for NULL. */
  datatype View = View(meta: Meta, category: seq<byte>, file: seq<byte>, func: seq<byte>, text: seq<byte>,
                       fields: seq<byte>)

  function MetaFields(m: Meta): seq<nat> {
    [m.commit, m.tid, m.realtime, m.mono, m.totalLen, m.msgLen, m.line, m.levelFlags,
     m.categoryLen, m.fileLen, m.funcLen, m.fieldCount]
  }

  function FieldsMeta(v: seq<nat>): Meta
    requires |v| == 12
  {
    Meta(v[0], v[1], v[2], v[3], v[4], v[5], v[6], v[7], v[8], v[9], v[10], v[11])
  }

  function HeaderBytes(m: Meta): (s: seq<byte>)
    ensures |s| == HDR
  {
    HeaderWidth();
    Pack(MetaFields(m), WIDTHS)
  }

  function ReadMeta(s: seq<byte>): Meta
    requires |s| >= HDR
  {
    HeaderWidth();
    FieldsMeta(Unpack(s, WIDTHS))
  }

  lemma HeaderWidth()
    ensures Total(WIDTHS) == HDR
  {
    var short := [4, 4, 4, 4, 2, 2, 2, 2];
    assert WIDTHS[4..] == short && short[4..] == [2, 2, 2, 2];
    assert Total([2, 2, 2, 2]) == 8;
    TotalDrop(short, 4);
    TotalDrop(WIDTHS, 4);
  }

  lemma TotalDrop(ws: seq<nat>, n: nat)
    requires n == 4 <= |ws|
    ensures Total(ws) == ws[0] + ws[1] + ws[2] + ws[3] + Total(ws[4..])
  {
    assert ws[1..][1..] == ws[2..] && ws[2..][1..] == ws[3..] && ws[3..][1..] == ws[4..];
  }

  predicate MetaOk(m: Meta) {
    && m.commit < Pow256(8) && m.tid < Pow256(8) && m.realtime < Pow256(8) && m.mono < Pow256(8)
    && m.totalLen < Pow256(4) && m.msgLen < Pow256(4) && m.line < Pow256(4) && m.levelFlags < Pow256(4)
    && m.categoryLen < Pow256(2) && m.fileLen < Pow256(2) && m.funcLen < Pow256(2) && m.fieldCount < Pow256(2)
  }

  lemma HeaderRoundTrip(m: Meta, rest: seq<byte>)
    requires MetaOk(m)
    ensures ReadMeta(HeaderBytes(m) + rest) == m
  {
    PackRoundTrip(MetaFields(m), WIDTHS, rest);
  }

  // ---------------------------------------------------------------- records

  function Payload(m: Message): seq<byte> { m.category + (m.file + (m.func + (m.text + m.fields))) }

  function MessageLen(m: Message): nat { Align8(HDR + |Payload(m)|) }

  function MetaOf(m: Message, total: nat): Meta {
    Meta(0, m.tid, m.realtime, m.mono, total, |m.text|, m.line, m.level + 256 * m.recFlags,
         |m.category| % 0x1_0000, |m.file| % 0x1_0000, |m.func| % 0x1_0000, m.fieldCount)
  }

  function PadMeta(total: nat): Meta { Meta(0, 0, 0, 0, total, 0, 0, 0x100, 0, 0, 0, 0) }

  predicate IsPad(m: Meta) { m.levelFlags / 256 % 2 == 1 }

  /** The caller's contract for one message and a ring of `cap` bytes. */
  predicate MessageOk(cap: nat, m: Message) {
    && 2 * MessageLen(m) <= cap
    && |m.category| < 0x1_0000 && |m.file| < 0x1_0000 && |m.func| < 0x1_0000 && m.fieldCount < 0x1_0000
    && m.line < Pow256(4) && m.tid < Pow256(8) && m.realtime < Pow256(8) && m.mono < Pow256(8)
    && m.recFlags % 2 == 0 && (m.fieldCount == 0 ==> m.fields == [])
  }

  /** The view of the record stored in `bs`, or None when its lengths do not fit. */
  function ParseView(bs: seq<byte>): Option<View>
    requires |bs| >= HDR
  {
    var meta := ReadMeta(bs);
    var a := HDR + meta.categoryLen;
    var b := a + meta.fileLen;
    var c := b + meta.funcLen;
    var d := c + meta.msgLen;
    if d <= meta.totalLen <= |bs| then
      Some(View(meta, bs[HDR..a], bs[a..b], bs[b..c], bs[c..d],
                if meta.fieldCount > 0 then bs[d..meta.totalLen] else []))
    else None
  }

  function MessageBytes(m: Message, total: nat): seq<byte> { HeaderBytes(MetaOf(m, total)) + Payload(m) }

  lemma MetaOfOk(cap: nat, m: Message, total: nat)
    requires MessageOk(cap, m) && cap < Pow256(4) && total <= cap
    ensures MetaOk(MetaOf(m, total)) && !IsPad(MetaOf(m, total))
    ensures MetaOf(m, total).categoryLen == |m.category| && MetaOf(m, total).fileLen == |m.file|
    ensures MetaOf(m, total).funcLen == |m.func|
  {
    Widths();
  }

  /** The five parts stand one after another from `at` to the end. */
  predicate PartsAt(x: seq<byte>, at: nat, p1: seq<byte>, p2: seq<byte>, p3: seq<byte>, p4: seq<byte>,
                    p5: seq<byte>)
  {
    var a := at + |p1|;
    var b := a + |p2|;
    var c := b + |p3|;
    var d := c + |p4|;
    && |x| == d + |p5| && x[at..a] == p1 && x[a..b] == p2 && x[b..c] == p3 && x[c..d] == p4 && x[d..] == p5
  }

  lemma PartsReadBack(x: seq<byte>, h: seq<byte>, p1: seq<byte>, p2: seq<byte>, p3: seq<byte>, p4: seq<byte>,
                      p5: seq<byte>)
    requires x == h + (p1 + (p2 + (p3 + (p4 + p5))))
    ensures PartsAt(x, |h|, p1, p2, p3, p4, p5)
  {
    var r4 := p4 + p5;
    var r3 := p3 + r4;
    var r2 := p2 + r3;
    CutOut(x, h, p1, r2);
    var h1 := h + p1;
    CutOut(x, h1, p2, r3);
    var h2 := h1 + p2;
    CutOut(x, h2, p3, r4);
    var h3 := h2 + p3;
    CutOut(x, h3, p4, p5);
  }

  lemma TailJoins(h: seq<byte>, p1: seq<byte>, p2: seq<byte>, p3: seq<byte>, p4: seq<byte>, p5: seq<byte>,
                  tail: seq<byte>)
    ensures (h + (p1 + (p2 + (p3 + (p4 + p5))))) + tail == h + (p1 + (p2 + (p3 + (p4 + (p5 + tail)))))
  {
    assert (p4 + p5) + tail == p4 + (p5 + tail);
    assert (p3 + (p4 + p5)) + tail == p3 + ((p4 + p5) + tail);
    assert (p2 + (p3 + (p4 + p5))) + tail == p2 + ((p3 + (p4 + p5)) + tail);
    assert (p1 + (p2 + (p3 + (p4 + p5)))) + tail == p1 + ((p2 + (p3 + (p4 + p5))) + tail);
  }

  lemma MetaReadsBack(cap: nat, m: Message, total: nat, tail: seq<byte>, x: seq<byte>)
    requires MessageOk(cap, m) && cap < Pow256(4) && total <= cap && x == MessageBytes(m, total) + tail
    ensures ReadMeta(x) == MetaOf(m, total)
  {
    hide HeaderBytes, ReadMeta;
    MetaOfOk(cap, m, total);
    var h, p := HeaderBytes(MetaOf(m, total)), Payload(m);
    assert (h + p) + tail == h + (p + tail);
    HeaderRoundTrip(MetaOf(m, total), Payload(m) + tail);
  }

  lemma PayloadReadsBack(m: Message, total: nat, tail: seq<byte>, x: seq<byte>)
    requires x == MessageBytes(m, total) + tail && |x| == total
    ensures PartsAt(x, HDR, m.category, m.file, m.func, m.text, m.fields + tail)
  {
    hide ReadMeta, PartsAt;
    var h := HeaderBytes(MetaOf(m, total));
    hide HeaderBytes;
    TailJoins(h, m.category, m.file, m.func, m.text, m.fields, tail);
    PartsReadBack(x, h, m.category, m.file, m.func, m.text, m.fields + tail);
  }

  lemma ParseAs(x: seq<byte>, meta: Meta, p1: seq<byte>, p2: seq<byte>, p3: seq<byte>, p4: seq<byte>, p5: seq<byte>)
    requires |x| >= HDR && ReadMeta(x) == meta && meta.totalLen == |x|
    requires meta.categoryLen == |p1| && meta.fileLen == |p2| && meta.funcLen == |p3| && meta.msgLen == |p4|
    requires PartsAt(x, HDR, p1, p2, p3, p4, p5)
    ensures ParseView(x) == Some(View(meta, p1, p2, p3, p4, if meta.fieldCount > 0 then p5 else []))
  {
    hide ReadMeta;
    assert x[|x| - |p5|..|x|] == x[|x| - |p5|..];
  }

  /** Reading back a stored message: every part byte for byte; the field region may carry
      trailing bytes of the record after the wire bytes. */
  lemma ParseReadsMessage(cap: nat, m: Message, total: nat, tail: seq<byte>, x: seq<byte>)
    requires MessageOk(cap, m) && cap < Pow256(4) && total <= cap
    requires x == MessageBytes(m, total) + tail && |x| == total
    ensures ParseView(x) == Some(View(MetaOf(m, total), m.category, m.file, m.func, m.text,
                                      if m.fieldCount > 0 then m.fields + tail else []))
  {
    hide HeaderBytes, ReadMeta, ParseView, PartsAt, Payload;
    MetaReadsBack(cap, m, total, tail, x);
    MetaOfOk(cap, m, total);
    PayloadReadsBack(m, total, tail, x);
    ParseAs(x, MetaOf(m, total), m.category, m.file, m.func, m.text, m.fields + tail);
  }
}
