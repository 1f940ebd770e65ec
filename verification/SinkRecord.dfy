/** The packed record of the second-level sink queue and the byte stream of records and
    wrap-bridge pads the worker decodes. */
module SinkRecord {
  import opened Bytes
  import opened Options

  const SQ_HDR: nat := 56
  const FIELD_WIDTHS: seq<nat> := [4, 1, 3, 2, 2, 2, 2, 2, 2, 2, 2, 8, 8, 8, 8]

  /** One event; signed times are given as their 64 bits, an absent part is empty. */
  datatype Event = Event(level: byte, line: seq<byte>, msg: seq<byte>, category: seq<byte>, file: seq<byte>,
                         func: seq<byte>, fieldCount: nat, fields: seq<byte>, srcLine: int,
                         realtime: nat, mono: nat, tid: nat)

  /** The source line as the 16 bits that survive packing. */
  function Line16(srcLine: int): nat { if srcLine < 0 then 0 else srcLine % 0x1_0000 }

  function AsPacked(e: Event): Event { e.(srcLine := Line16(e.srcLine)) }

  predicate EventOk(e: Event) {
    && |e.line| < 0x1_0000 && |e.msg| < 0x1_0000 && |e.category| < 0x1_0000 && |e.file| < 0x1_0000
    && |e.func| < 0x1_0000 && |e.fields| < 0x1_0000 && e.fieldCount < 0x1_0000
    && e.realtime < Pow256(8) && e.mono < Pow256(8) && e.tid < Pow256(8)
  }

  function Body(e: Event): seq<byte> { e.line + (e.msg + (e.category + (e.file + (e.func + e.fields)))) }

  function PackedSize(e: Event): nat { SQ_HDR + |Body(e)| }

  function HeaderFields(e: Event): seq<nat> {
    [PackedSize(e), e.level, 0, |e.line|, |e.msg|, |e.category|, |e.file|, |e.func|, e.fieldCount, |e.fields|,
     Line16(e.srcLine), 0, e.realtime, e.mono, e.tid]
  }

  lemma HeaderWidth()
    ensures Total(FIELD_WIDTHS) == SQ_HDR
  {
    var a: seq<nat> := [2, 2, 2, 2, 2, 2, 2, 8, 8, 8, 8];
    var b: seq<nat> := [2, 2, 2, 2, 8, 8, 8, 8];
    var c: seq<nat> := [8, 8, 8, 8];
    WidthTails();
    hide Total;
    TotalDrop4(FIELD_WIDTHS);
    TotalDrop3(a);
    TotalDrop4(b);
    TotalDrop4(c);
  }

  lemma WidthTails()
    ensures var a: seq<nat> := [2, 2, 2, 2, 2, 2, 2, 8, 8, 8, 8];
            var b: seq<nat> := [2, 2, 2, 2, 8, 8, 8, 8];
            var c: seq<nat> := [8, 8, 8, 8];
            FIELD_WIDTHS[4..] == a && a[3..] == b && b[4..] == c && c[4..] == [] && Total([]) == 0
  {
  }

  lemma TotalDrop3(ws: seq<nat>)
    requires |ws| >= 3
    ensures Total(ws) == ws[0] + ws[1] + ws[2] + Total(ws[3..])
  {
    assert ws[1..][1..] == ws[2..] && ws[2..][1..] == ws[3..];
  }

  lemma TotalDrop4(ws: seq<nat>)
    requires |ws| >= 4
    ensures Total(ws) == ws[0] + ws[1] + ws[2] + ws[3] + Total(ws[4..])
  {
    TotalDrop3(ws);
    assert ws[3..][1..] == ws[4..];
  }

  function Header(e: Event): (s: seq<byte>)
    ensures |s| == SQ_HDR
  {
    HeaderWidth();
    Pack(HeaderFields(e), FIELD_WIDTHS)
  }

  function Packed(e: Event): (s: seq<byte>)
    ensures |s| == PackedSize(e)
  {
    Header(e) + Body(e)
  }

  // ---------------------------------------------------------------- decoding

  function ReadHeader(s: seq<byte>): (v: seq<nat>)
    requires |s| >= SQ_HDR
    ensures |v| == 15
  {
    HeaderWidth();
    Unpack(s, FIELD_WIDTHS)
  }

  /** The record length a reader at the start of `s` sees; 0 marks a wrap-bridge pad. */
  function RecLen(s: seq<byte>): nat
    requires |s| >= SQ_HDR
  {
    ReadHeader(s)[0]
  }

  /** sq_decode: the event at the start of `s`, or None for an incomplete or corrupt one. */
  function Decode(s: seq<byte>): Option<Event> {
    if |s| < SQ_HDR then None else
    var v := ReadHeader(s);
    var a := SQ_HDR + v[3];
    var b := a + v[4];
    var c := b + v[5];
    var d := c + v[6];
    var f := d + v[7];
    var g := f + v[9];
    if v[0] < SQ_HDR || |s| < v[0] || |s| < g then None
    else Some(Event(v[1] % 256, s[SQ_HDR..a], s[a..b], s[b..c], s[c..d], s[d..f], v[8], s[f..g],
                    v[10], v[12], v[13], v[14]))
  }

  lemma HeaderReadsBack(e: Event, rest: seq<byte>, s: seq<byte>)
    requires EventOk(e) && s == Packed(e) + rest
    ensures ReadHeader(s) == HeaderFields(e)
  {
    HeaderFits(e);
    hide Body, HeaderFields, EventOk, ReadHeader;
    Regroup(Header(e), Body(e), rest);
    PackRoundTrip(HeaderFields(e), FIELD_WIDTHS, Body(e) + rest);
    ReadHeaderIs(s);
  }

  lemma Regroup(h: seq<byte>, b: seq<byte>, rest: seq<byte>)
    ensures (h + b) + rest == h + (b + rest)
  {
  }

  lemma ReadHeaderIs(s: seq<byte>)
    requires |s| >= SQ_HDR
    ensures Total(FIELD_WIDTHS) == SQ_HDR && ReadHeader(s) == Unpack(s, FIELD_WIDTHS)
  {
    HeaderWidth();
  }

  lemma HeaderFits(e: Event)
    requires EventOk(e)
    ensures forall i | 0 <= i < 15 :: HeaderFields(e)[i] < Pow256(FIELD_WIDTHS[i])
  {
    hide Body;
    Widths();
    assert Pow256(3) == 256 * Pow256(2);
    BodySize(e);
  }

  lemma BodySize(e: Event)
    ensures |Body(e)| == |e.line| + |e.msg| + |e.category| + |e.file| + |e.func| + |e.fields|
  {
  }

  lemma PartsReadBack(x: seq<byte>, h: seq<byte>, p1: seq<byte>, p2: seq<byte>, p3: seq<byte>, p4: seq<byte>,
                      p5: seq<byte>, p6: seq<byte>, rest: seq<byte>)
    requires x == h + (p1 + (p2 + (p3 + (p4 + (p5 + (p6 + rest))))))
    ensures var a := |h| + |p1|; var b := a + |p2|; var c := b + |p3|; var d := c + |p4|; var f := d + |p5|;
            && x[|h|..a] == p1 && x[a..b] == p2 && x[b..c] == p3 && x[c..d] == p4 && x[d..f] == p5
            && x[f..f + |p6|] == p6 && f + |p6| <= |x|
  {
    var r6 := p6 + rest;
    var r5 := p5 + r6;
    var r4 := p4 + r5;
    var r3 := p3 + r4;
    var r2 := p2 + r3;
    CutOut(x, h, p1, r2);
    var h1 := h + p1;
    CutOut(x, h1, p2, r3);
    var h2 := h1 + p2;
    CutOut(x, h2, p3, r4);
    var h3 := h2 + p3;
    CutOut(x, h3, p4, r5);
    var h4 := h3 + p4;
    CutOut(x, h4, p5, r6);
    var h5 := h4 + p5;
    CutOut(x, h5, p6, rest);
  }

  lemma RestJoins(h: seq<byte>, p1: seq<byte>, p2: seq<byte>, p3: seq<byte>, p4: seq<byte>, p5: seq<byte>,
                  p6: seq<byte>, rest: seq<byte>)
    ensures (h + (p1 + (p2 + (p3 + (p4 + (p5 + p6)))))) + rest
            == h + (p1 + (p2 + (p3 + (p4 + (p5 + (p6 + rest))))))
  {
    assert (p5 + p6) + rest == p5 + (p6 + rest);
    assert (p4 + (p5 + p6)) + rest == p4 + ((p5 + p6) + rest);
    assert (p3 + (p4 + (p5 + p6))) + rest == p3 + ((p4 + (p5 + p6)) + rest);
    assert (p2 + (p3 + (p4 + (p5 + p6)))) + rest == p2 + ((p3 + (p4 + (p5 + p6))) + rest);
    assert (p1 + (p2 + (p3 + (p4 + (p5 + p6))))) + rest == p1 + ((p2 + (p3 + (p4 + (p5 + p6)))) + rest);
  }

  lemma BodyReadsBack(e: Event, rest: seq<byte>, x: seq<byte>)
    requires x == Packed(e) + rest
    ensures var a := SQ_HDR + |e.line|; var b := a + |e.msg|; var c := b + |e.category|; var d := c + |e.file|;
            var f := d + |e.func|;
            && x[SQ_HDR..a] == e.line && x[a..b] == e.msg && x[b..c] == e.category && x[c..d] == e.file
            && x[d..f] == e.func && x[f..f + |e.fields|] == e.fields && f + |e.fields| == PackedSize(e) <= |x|
  {
    var h := Header(e);
    hide Header;
    RestJoins(h, e.line, e.msg, e.category, e.file, e.func, e.fields, rest);
    PartsReadBack(x, h, e.line, e.msg, e.category, e.file, e.func, e.fields, rest);
  }

  /** Decoding what was packed gives the event back, whatever follows it. */
  lemma DecodePacked(e: Event, rest: seq<byte>, s: seq<byte>)
    requires EventOk(e) && s == Packed(e) + rest
    ensures |s| >= SQ_HDR && RecLen(s) == PackedSize(e) && Decode(s) == Some(AsPacked(e))
  {
    HeaderReadsBack(e, rest, s);
    HeaderFits(e);
    BodySize(e);
    hide ReadHeader, Packed, Body;
    BodyReadsBack(e, rest, s);
    DecodeIs(s, e);
  }

  lemma DecodeIs(s: seq<byte>, e: Event)
    requires |s| >= PackedSize(e) && ReadHeader(s) == HeaderFields(e)
    requires |Body(e)| == |e.line| + |e.msg| + |e.category| + |e.file| + |e.func| + |e.fields|
    requires var a := SQ_HDR + |e.line|; var b := a + |e.msg|; var c := b + |e.category|; var d := c + |e.file|;
             var f := d + |e.func|;
             && s[SQ_HDR..a] == e.line && s[a..b] == e.msg && s[b..c] == e.category && s[c..d] == e.file
             && s[d..f] == e.func && s[f..f + |e.fields|] == e.fields
    ensures Decode(s) == Some(AsPacked(e)) && RecLen(s) == PackedSize(e)
  {
    hide ReadHeader, Body;
  }

  /** Packing loses nothing of an event whose source line fits into 16 bits; of another line
      number it keeps the low 16 bits, and of a negative one nothing. */
  lemma PackedKeeps(e: Event)
    ensures AsPacked(e) == e <==> 0 <= e.srcLine < 0x1_0000
    ensures e.srcLine < 0 ==> AsPacked(e).srcLine == 0
    ensures AsPacked(e).(srcLine := e.srcLine) == e && 0 <= AsPacked(e).srcLine < 0x1_0000
    ensures e.srcLine >= 0 ==> (e.srcLine - AsPacked(e).srcLine) % 0x1_0000 == 0
  {
  }

  // ---------------------------------------------------------------- the stream

  datatype Item = Pad | Record(e: Event)

  function ItemBytes(i: Item): seq<byte> {
    match i
    case Pad => [0, 0, 0, 0]
    case Record(e) => Packed(e)
  }

  function Stream(items: seq<Item>): seq<byte> {
    if items == [] then [] else ItemBytes(items[0]) + Stream(items[1..])
  }

  function Events(items: seq<Item>): seq<Event> {
    if items == [] then []
    else (if items[0].Record? then [AsPacked(items[0].e)] else []) + Events(items[1..])
  }

  lemma StreamAppend(items: seq<Item>, i: Item)
    ensures Stream(items + [i]) == Stream(items) + ItemBytes(i)
    ensures Events(items + [i]) == Events(items) + if i.Record? then [AsPacked(i.e)] else []
  {
    BytesAppend(items, i);
    EventsAppend(items, i);
  }

  lemma {:induction false} BytesAppend(items: seq<Item>, i: Item)
    ensures Stream(items + [i]) == Stream(items) + ItemBytes(i)
  {
    hide ItemBytes;
    if items == [] {
      assert (items + [i])[1..] == [];
    } else {
      BytesAppend(items[1..], i);
      assert (items + [i])[1..] == items[1..] + [i];
    }
  }

  lemma {:induction false} EventsAppend(items: seq<Item>, i: Item)
    ensures Events(items + [i]) == Events(items) + if i.Record? then [AsPacked(i.e)] else []
  {
    hide AsPacked;
    if items == [] {
      assert (items + [i])[1..] == [];
    } else {
      EventsAppend(items[1..], i);
      assert (items + [i])[1..] == items[1..] + [i];
    }
  }

  lemma PadIsZero(s: seq<byte>)
    requires |s| >= SQ_HDR && s[..4] == [0, 0, 0, 0]
    ensures RecLen(s) == 0
  {
    assert RecLen(s) == FromLE(s[..4]);
    assert FromLE([0]) == 0 && FromLE([0, 0]) == 0 && FromLE([0, 0, 0]) == 0;
  }

  /** What is left when fewer than a header's bytes remain is pads. */
  lemma {:induction false} ShortIsPads(items: seq<Item>)
    requires |Stream(items)| < SQ_HDR
    ensures Events(items) == []
  {
    if items != [] { ShortIsPads(items[1..]); }
  }
}
