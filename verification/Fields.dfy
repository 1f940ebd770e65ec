/** The structured-field wire format: what serializing keeps, what unpacking returns, and
    what the per-sink key filter does to a region. */
module Fields {
  import opened Bytes
  import opened Options

  const MAX_FIELDS: nat := 16
  const MAX_KEY: nat := 64
  const MAX_STR: nat := 256

  /** A typed value; scalars as their 64 bits (`Bool` as the byte of its 0 or 1), and
      `Other` for a tag outside the enumeration. */
  datatype Value = I64(bits: nat) | U64(bits: nat) | F64(bits: nat) | Bool(bits: nat) | Str(s: seq<byte>)
                 | Other(tag: byte, bits: nat)

  datatype Field = Field(key: seq<byte>, value: Value)

  /** One entry of the caller's array: a NULL key is None, a NULL string an empty one. */
  datatype Arg = Arg(key: Option<seq<byte>>, value: Value)

  predicate ValueOk(v: Value) {
    match v
    case I64(b) => b < Pow256(8)
    case U64(b) => b < Pow256(8)
    case F64(b) => b < Pow256(8)
    case Bool(b) => b < 256
    case Str(_) => true
    case Other(t, _) => t > 4
  }

  // ---------------------------------------------------------------- spans

  /** One self-delimiting entry of the wire region, byte for byte. */
  datatype Span = Span(key: seq<byte>, tag: byte, pad: byte, val: seq<byte>)

  function SpanLen(s: Span): nat { 6 + |s.key| + |s.val| }

  function SpanBytes(s: Span): (bs: seq<byte>)
    ensures |bs| == SpanLen(s)
  {
    LE(|s.key|, 2) + [s.tag, s.pad] + LE(|s.val|, 2) + s.key + s.val
  }

  predicate SpanOk(s: Span) { |s.key| < 0x1_0000 && |s.val| < 0x1_0000 }

  function Region(ss: seq<Span>): seq<byte> {
    if ss == [] then [] else SpanBytes(ss[0]) + Region(ss[1..])
  }

  /** The span at the start of a region, or None at a corrupt or finished one. */
  function FirstSpan(wire: seq<byte>): Option<Span> {
    if |wire| < 6 then None else
    var k, v := FromLE(wire[..2]), FromLE(wire[4..6]);
    if 6 + k + v > |wire| then None
    else Some(Span(wire[6..6 + k], wire[2], wire[3], wire[6 + k..6 + k + v]))
  }

  /** The spans a reader that was told `count` finds. */
  function Spans(wire: seq<byte>, count: nat): (ss: seq<Span>)
    ensures |ss| <= count
  {
    if count == 0 then [] else
    match FirstSpan(wire)
    case None => []
    case Some(s) => [s] + Spans(wire[SpanLen(s)..], count - 1)
  }

  lemma FirstSpanReadsBack(s: Span, rest: seq<byte>, wire: seq<byte>)
    requires SpanOk(s) && wire == SpanBytes(s) + rest
    ensures FirstSpan(wire) == Some(s) && wire[SpanLen(s)..] == rest
  {
    Widths();
    LERoundTrip(|s.key|, 2);
    LERoundTrip(|s.val|, 2);
    hide LE, FromLE;
    assert wire[..2] == LE(|s.key|, 2);
    assert wire[4..6] == LE(|s.val|, 2);
    assert wire[6..6 + |s.key|] == s.key;
    assert wire[6 + |s.key|..6 + |s.key| + |s.val|] == s.val;
  }

  /** Reading a region back, whatever bytes follow it. */
  lemma {:induction false} SpansReadBack(ss: seq<Span>, rest: seq<byte>, wire: seq<byte>)
    requires (forall s | s in ss :: SpanOk(s)) && wire == Region(ss) + rest
    ensures Spans(wire, |ss|) == ss
  {
    if ss != [] {
      hide SpanBytes, SpanOk;
      assert SpanOk(ss[0]);
      var more := Region(ss[1..]) + rest;
      assert wire == SpanBytes(ss[0]) + more;
      FirstSpanReadsBack(ss[0], more, wire);
      SpansReadBack(ss[1..], rest, more);
    }
  }

  lemma FirstSpanIsThere(wire: seq<byte>)
    requires FirstSpan(wire).Some?
    ensures var s := FirstSpan(wire).value;
            SpanOk(s) && SpanLen(s) <= |wire| && wire == SpanBytes(s) + wire[SpanLen(s)..]
  {
    var s := FirstSpan(wire).value;
    LEOfTwo(wire[0], wire[1]);
    LEOfTwo(wire[4], wire[5]);
    assert wire[..2] == [wire[0], wire[1]] && wire[4..6] == [wire[4], wire[5]];
    hide LE, FromLE;
    assert wire[..2] + [wire[2], wire[3]] + wire[4..6] == wire[..6];
    assert wire[..6] + s.key + s.val == wire[..SpanLen(s)];
    assert wire == wire[..SpanLen(s)] + wire[SpanLen(s)..];
  }

  lemma LEOfTwo(a: byte, b: byte)
    ensures FromLE([a, b]) < 0x1_0000 && LE(FromLE([a, b]), 2) == [a, b]
  {
    assert [a, b][1..] == [b] && [b][1..] == [];
    assert FromLE([b]) == b && FromLE([a, b]) == a + 256 * b;
    assert LE(b, 1) == [b];
    assert LE(a + 256 * b, 2) == [a] + LE(b, 1);
  }
}
