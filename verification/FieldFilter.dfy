/** The per-sink key whitelist: it copies the kept spans of a region verbatim, and commutes
    with unpacking for every region, given the count its callers give it. */
module FieldFilter {
  import opened Bytes
  import opened Options
  import opened Fields
  import opened FieldsCodec

  predicate Listed(keys: seq<seq<byte>>, key: seq<byte>) { key in keys }

  function KeptSpans(ss: seq<Span>, keys: seq<seq<byte>>): (r: seq<Span>)
    ensures |r| <= |ss|
  {
    if ss == [] then []
    else if Listed(keys, ss[0].key) then [ss[0]] + KeptSpans(ss[1..], keys)
    else KeptSpans(ss[1..], keys)
  }

  function KeptFields(fs: seq<Field>, keys: seq<seq<byte>>): seq<Field> {
    if fs == [] then []
    else if Listed(keys, fs[0].key) then [fs[0]] + KeptFields(fs[1..], keys)
    else KeptFields(fs[1..], keys)
  }

  function Removed(wire: seq<byte>, count: nat, keys: seq<seq<byte>>): nat {
    if keys == [] then 0 else |Spans(wire, count)| - |KeptSpans(Spans(wire, count), keys)|
  }

  /** The kept spans, padded to 8 bytes. */
  function Rebuilt(wire: seq<byte>, count: nat, keys: seq<seq<byte>>): seq<byte> {
    var region := Region(KeptSpans(Spans(wire, count), keys));
    region + Zeros(Align8(|region|) - |region|)
  }

  /** The region and field count a sink sees after the filter. */
  function Filtered(wire: seq<byte>, count: nat, keys: seq<seq<byte>>): (seq<byte>, nat) {
    if Removed(wire, count, keys) == 0 then (wire, count)
    else (Rebuilt(wire, count, keys), count - Removed(wire, count, keys))
  }

  /** filter_key_match; lengths are compared in eight bits. */
  method KeyMatch(keys: seq<seq<byte>>, key: seq<byte>) returns (r: bool)
    requires |key| < 256
    ensures r <==> key in keys
  {
    var i := 0;
    while i < |keys|
      invariant i <= |keys| && key !in keys[..i]
    {
      if |keys[i]| == |key| % 256 && keys[i] == key {
        return true;
      }
      i := i + 1;
    }
    r := false;
  }

  predicate ShortKeys(ss: seq<Span>) { forall s | s in ss :: |s.key| < 256 }

  /** The spans from offset `off` on, of which the loops have yet to see `n`. */
  ghost predicate Ahead(wire: seq<byte>, count: nat, off: nat, i: nat, done: seq<Span>) {
    off <= |wire| && i == |done| <= count && Spans(wire, count) == done + Spans(wire[off..], count - i)
  }

  lemma AheadStarts(wire: seq<byte>, count: nat)
    ensures Ahead(wire, count, 0, 0, [])
  {
    assert wire[0..] == wire;
  }

  lemma AheadStep(wire: seq<byte>, count: nat, off: nat, i: nat, done: seq<Span>)
    requires Ahead(wire, count, off, i, done) && i < count
    ensures FirstSpan(wire[off..]).None? ==> Spans(wire, count) == done
    ensures FirstSpan(wire[off..]).Some? ==>
              var s := FirstSpan(wire[off..]).value;
              s in Spans(wire, count) && off + SpanLen(s) <= |wire|
              && Ahead(wire, count, off + SpanLen(s), i + 1, done + [s])
  {
    hide FirstSpan;
    var more := Spans(wire[off..], count - i);
    if FirstSpan(wire[off..]).Some? {
      var s := FirstSpan(wire[off..]).value;
      FirstSpanFits(wire[off..]);
      DropTwice(wire, off, SpanLen(s));
      assert done + more == (done + [s]) + more[1..];
      assert (done + more)[|done|] == s;
    }
  }

  lemma FirstSpanFits(wire: seq<byte>)
    ensures FirstSpan(wire).Some? ==> SpanLen(FirstSpan(wire).value) <= |wire|
  {
  }

  lemma DropTwice(wire: seq<byte>, a: nat, b: nat)
    requires a + b <= |wire|
    ensures wire[a..][b..] == wire[a + b..]
  {
  }

  lemma AheadEnds(wire: seq<byte>, count: nat, off: nat, i: nat, done: seq<Span>)
    requires Ahead(wire, count, off, i, done) && (i == count || off + 6 > |wire|)
    ensures Spans(wire, count) == done
  {
  }

  lemma {:induction false} KeptAppend(ss: seq<Span>, s: Span, keys: seq<seq<byte>>)
    ensures KeptSpans(ss + [s], keys) == if Listed(keys, s.key) then KeptSpans(ss, keys) + [s] else KeptSpans(ss, keys)
  {
    hide Listed;
    if ss == [] {
      assert (ss + [s])[1..] == [];
    } else {
      KeptAppend(ss[1..], s, keys);
      assert (ss + [s])[1..] == ss[1..] + [s];
    }
  }

  /** What filtering fields means: those whose key is on the list, in order. */
  lemma {:induction false} KeptOneByOne(fs: seq<Field>, f: Field, keys: seq<seq<byte>>)
    ensures KeptFields([], keys) == []
    ensures KeptFields(fs + [f], keys) == KeptFields(fs, keys) + if f.key in keys then [f] else []
  {
    if fs == [] {
      assert (fs + [f])[1..] == [];
    } else {
      KeptOneByOne(fs[1..], f, keys);
      assert (fs + [f])[1..] == fs[1..] + [f];
    }
  }

  lemma {:induction false} RegionGrows(ss: seq<Span>, s: Span)
    ensures Region(ss + [s]) == Region(ss) + SpanBytes(s)
  {
    hide SpanBytes;
    if ss == [] {
      assert (ss + [s])[1..] == [];
    } else {
      RegionGrows(ss[1..], s);
      assert (ss + [s])[1..] == ss[1..] + [s];
    }
  }

  /** Pass 1: how many spans go and how long the kept ones are. */
  method Measure(keys: seq<seq<byte>>, wire: seq<byte>, count: nat) returns (wlen: nat, removed: nat)
    requires keys != [] && ShortKeys(Spans(wire, count))
    ensures removed == Removed(wire, count, keys)
    ensures wlen == |Region(KeptSpans(Spans(wire, count), keys))|
  {
    hide FirstSpan, Spans, Ahead, SpanBytes;
    wlen, removed := 0, 0;
    var off: nat, i: nat := 0, 0;
    ghost var done: seq<Span> := [];
    AheadStarts(wire, count);
    while i < count && off + 6 <= |wire|
      invariant Ahead(wire, count, off, i, done) && i == |done| <= count && off <= |wire|
      invariant wlen == |Region(KeptSpans(done, keys))| && removed == |done| - |KeptSpans(done, keys)|
    {
      var first := FirstSpan(wire[off..]);
      AheadStep(wire, count, off, i, done);
      if first.None? {
        return;
      }
      var s := first.value;
      KeptAppend(done, s, keys);
      RegionGrows(KeptSpans(done, keys), s);
      var keep := KeyMatch(keys, s.key);
      if keep {
        wlen := wlen + SpanLen(s);
      } else {
        removed := removed + 1;
      }
      off, i, done := off + SpanLen(s), i + 1, done + [s];
    }
    AheadEnds(wire, count, off, i, done);
  }

  /** Pass 2: copy the kept spans and pad. */
  method Rebuild(keys: seq<seq<byte>>, wire: seq<byte>, count: nat, scratch: array<byte>) returns (k: nat)
    requires keys != [] && ShortKeys(Spans(wire, count))
    requires scratch.Length >= |Rebuilt(wire, count, keys)|
    modifies scratch
    ensures k <= scratch.Length && scratch[..k] == Rebuilt(wire, count, keys)
  {
    ghost var all := Spans(wire, count);
    RebuiltSize(wire, count, keys);
    hide FirstSpan, Spans, Ahead, SpanBytes, Zeros, Rebuilt, Region, KeptSpans, Align8;
    k := 0;
    var src: nat, i: nat := 0, 0;
    ghost var done: seq<Span> := [];
    AheadStarts(wire, count);
    NothingKept(keys);
    while i < count && src + 6 <= |wire|
      invariant Ahead(wire, count, src, i, done) && i == |done| <= count && src <= |wire|
      invariant k <= scratch.Length && scratch[..k] == Region(KeptSpans(done, keys))
    {
      var first := FirstSpan(wire[src..]);
      AheadStep(wire, count, src, i, done);
      if first.None? {
        break;
      }
      var s := first.value;
      KeptAppend(done, s, keys);
      RegionGrows(KeptSpans(done, keys), s);
      PrefixFits(wire, count, src + SpanLen(s), i + 1, done + [s], keys);
      var keep := KeyMatch(keys, s.key);
      if keep {
        WriteSpan(scratch, k, s);
        k := k + SpanLen(s);
      }
      src, i, done := src + SpanLen(s), i + 1, done + [s];
    }
    if i == count || src + 6 > |wire| {
      AheadEnds(wire, count, src, i, done);
    }
    ghost var region := scratch[..k];
    while k % 8 != 0
      invariant |region| <= k <= Align8(|region|) <= scratch.Length
      invariant scratch[..|region|] == region && forall x | |region| <= x < k :: scratch[x] == 0
      decreases scratch.Length - k
    {
      scratch[k] := 0;
      k := k + 1;
    }
    Align8Least(|region|, k);
    PaddedRegion(scratch[..k], region);
    RebuiltIs(wire, count, keys, region);
  }

  lemma NothingKept(keys: seq<seq<byte>>)
    ensures Region(KeptSpans([], keys)) == []
  {
  }

  lemma Align8Least(n: nat, k: nat)
    requires n <= k <= Align8(n) && k % 8 == 0
    ensures k == Align8(n)
  {
  }

  lemma RebuiltSize(wire: seq<byte>, count: nat, keys: seq<seq<byte>>)
    ensures |Rebuilt(wire, count, keys)| == Align8(|Region(KeptSpans(Spans(wire, count), keys))|)
  {
  }

  lemma RebuiltIs(wire: seq<byte>, count: nat, keys: seq<seq<byte>>, region: seq<byte>)
    requires region == Region(KeptSpans(Spans(wire, count), keys))
    ensures Rebuilt(wire, count, keys) == region + Zeros(Align8(|region|) - |region|)
  {
  }

  lemma PrefixFits(wire: seq<byte>, count: nat, off: nat, i: nat, done: seq<Span>, keys: seq<seq<byte>>)
    requires Ahead(wire, count, off, i, done)
    ensures |Region(KeptSpans(done, keys))| <= |Region(KeptSpans(Spans(wire, count), keys))|
  {
    KeptPrefix(done, Spans(wire[off..], count - i), keys);
  }

  lemma {:induction false} KeptPrefix(a: seq<Span>, b: seq<Span>, keys: seq<seq<byte>>)
    ensures |Region(KeptSpans(a, keys))| <= |Region(KeptSpans(a + b, keys))|
  {
    hide SpanBytes, Listed;
    if a != [] {
      KeptPrefix(a[1..], b, keys);
      assert (a + b)[1..] == a[1..] + b;
      RegionCons(a[0], KeptSpans(a[1..], keys));
      RegionCons(a[0], KeptSpans(a[1..] + b, keys));
    }
  }

  lemma RegionCons(s: Span, ss: seq<Span>)
    ensures Region([s] + ss) == SpanBytes(s) + Region(ss)
  {
    assert ([s] + ss)[1..] == ss;
  }

  /** hpu_output_filter_apply: the new region, its field count and the fields re-unpacked
      from it; an untouched view when nothing is removed. */
  method Apply(keys: seq<seq<byte>>, wire: seq<byte>, count: nat, fields: seq<Field>, max: nat)
    returns (removed: nat, wire': seq<byte>, count': nat, fields': seq<Field>)
    requires ShortKeys(Spans(wire, count))
    ensures removed == Removed(wire, count, keys) && wire' == Filtered(wire, count, keys).0
    ensures if removed == 0 then fields' == fields && count' == count
            else fields' == Unpacked(wire', count - removed, max) && count' == |fields'|
  {
    removed, wire', count', fields' := 0, wire, count, fields;
    if keys == [] || wire == [] || count == 0 {
      return;
    }
    var wlen;
    wlen, removed := Measure(keys, wire, count);
    if removed == 0 {
      return;
    }
    var scratch := new byte[Align8(wlen)];
    RebuiltSize(wire, count, keys);
    var k := Rebuild(keys, wire, count, scratch);
    wire' := scratch[..k];
    fields' := FieldsCodec.Unpack(wire', count - removed, max);
    count' := |fields'|;
  }

  // ---------------------------------------------------------------- laws

  lemma {:induction false} SpansSplit(ss: seq<Span>, rest: seq<byte>, m: nat, wire: seq<byte>)
    requires (forall s | s in ss :: SpanOk(s)) && wire == Region(ss) + rest
    ensures Spans(wire, |ss| + m) == ss + Spans(rest, m)
  {
    hide SpanBytes, SpanOk, FirstSpan;
    if ss == [] {
      assert wire == rest;
    } else {
      assert SpanOk(ss[0]);
      var first, later := ss[0], ss[1..];
      var more := Region(later) + rest;
      assert wire == SpanBytes(first) + more;
      FirstSpanReadsBack(first, more, wire);
      SpansSplit(later, rest, m, more);
      SpansCons(first, more, |later| + m, wire);
      hide Spans, Region;
      assert ss == [first] + later;
      assert ss + Spans(rest, m) == [first] + (later + Spans(rest, m));
    }
  }

  lemma SpansCons(s: Span, more: seq<byte>, n: nat, wire: seq<byte>)
    requires FirstSpan(wire) == Some(s) && SpanLen(s) <= |wire| && wire[SpanLen(s)..] == more
    ensures Spans(wire, n + 1) == [s] + Spans(more, n)
  {
    hide FirstSpan;
  }

  lemma {:induction false} SpansAreOk(wire: seq<byte>, count: nat)
    ensures forall s | s in Spans(wire, count) :: SpanOk(s)
  {
    if count > 0 && FirstSpan(wire).Some? {
      hide SpanBytes, SpanOk;
      FirstSpanIsThere(wire);
      SpansAreOk(wire[SpanLen(FirstSpan(wire).value)..], count - 1);
    }
  }

  lemma {:induction false} KeptAreIn(ss: seq<Span>, keys: seq<seq<byte>>)
    ensures forall s | s in KeptSpans(ss, keys) :: s in ss && Listed(keys, s.key)
  {
    if ss != [] { KeptAreIn(ss[1..], keys); }
  }

  lemma {:induction false} KeptOfFields(ss: seq<Span>, keys: seq<seq<byte>>)
    ensures FieldsOf(KeptSpans(ss, keys)) == KeptFields(FieldsOf(ss), keys)
  {
    hide ValueOf, Listed;
    if ss != [] {
      KeptOfFields(ss[1..], keys);
      assert FieldsOf(ss)[1..] == FieldsOf(ss[1..]);
      assert ([ss[0]] + KeptSpans(ss[1..], keys))[1..] == KeptSpans(ss[1..], keys);
    }
  }

  lemma {:induction false} KeptAgain(ss: seq<Span>, keys: seq<seq<byte>>)
    requires forall s | s in ss :: Listed(keys, s.key)
    ensures KeptSpans(ss, keys) == ss
  {
    if ss != [] { KeptAgain(ss[1..], keys); }
  }

  /** The bytes of padding behind the kept spans. */
  function Padding(wire: seq<byte>, count: nat, keys: seq<seq<byte>>): nat {
    var region := Region(KeptSpans(Spans(wire, count), keys));
    Align8(|region|) - |region|
  }

  /** What a reader of the rebuilt region finds: the kept spans, and after a corrupt region
      possibly one spurious empty field read out of the padding. */
  lemma RebuiltSpans(wire: seq<byte>, count: nat, keys: seq<seq<byte>>) returns (extra: seq<Span>)
    ensures var ss := Spans(wire, count); var kept := KeptSpans(ss, keys);
            Spans(Rebuilt(wire, count, keys), count - (|ss| - |kept|)) == kept + extra
    ensures extra == [] <==> count == |Spans(wire, count)| || Padding(wire, count, keys) < 6
  {
    hide Spans, KeptSpans, Region, Padding, Rebuilt, SpanOk;
    var ss := Spans(wire, count);
    KeptAreOk(wire, count, keys);
    RebuiltParts(wire, count, keys);
    extra := ReadsRebuilt(KeptSpans(ss, keys), Padding(wire, count, keys), count - |ss|, Rebuilt(wire, count, keys));
  }

  lemma ReadsRebuilt(kept: seq<Span>, padding: nat, m: nat, wire: seq<byte>) returns (extra: seq<Span>)
    requires (forall s | s in kept :: SpanOk(s)) && wire == Region(kept) + Zeros(padding)
    ensures Spans(wire, |kept| + m) == kept + extra
    ensures extra == [] <==> m == 0 || padding < 6
  {
    hide SpanOk, Spans, Region;
    extra := Spans(Zeros(padding), m);
    SpansSplit(kept, Zeros(padding), m, wire);
    ZerosRead(padding, m);
  }

  lemma RebuiltParts(wire: seq<byte>, count: nat, keys: seq<seq<byte>>)
    ensures Rebuilt(wire, count, keys)
            == Region(KeptSpans(Spans(wire, count), keys)) + Zeros(Padding(wire, count, keys))
  {
  }

  lemma ZerosRead(n: nat, m: nat)
    ensures Spans(Zeros(n), m) == [] <==> m == 0 || n < 6
  {
    if n >= 6 { EmptySpan(n); }
  }

  lemma KeptAreOk(wire: seq<byte>, count: nat, keys: seq<seq<byte>>)
    ensures forall s | s in KeptSpans(Spans(wire, count), keys) :: SpanOk(s)
  {
    SpansAreOk(wire, count);
    KeptAreIn(Spans(wire, count), keys);
  }

  lemma EmptySpan(n: nat)
    requires n >= 6
    ensures FirstSpan(Zeros(n)).Some?
  {
    var z := Zeros(n);
    assert z[..2] == [0, 0] && z[4..6] == [0, 0];
    assert FromLE([0]) == 0 && [0, 0][1..] == [0];
    assert FromLE([0, 0]) == 0;
  }

  /** For the function alone and any count, filtering and then unpacking is unpacking and then
      filtering exactly when the region holds as many fields as the count says or the padding
      is too short to be read as one. */
  lemma FilterCommutesWithUnpack(wire: seq<byte>, count: nat, max: nat, keys: seq<seq<byte>>)
    requires count <= max && Removed(wire, count, keys) > 0
    ensures var (wire', count') := Filtered(wire, count, keys);
            Unpacked(wire', count', max) == KeptFields(Unpacked(wire, count, max), keys) <==>
            |Spans(wire, count)| == count || Padding(wire, count, keys) < 6
  {
    var ss := Spans(wire, count);
    var kept := KeptSpans(ss, keys);
    var extra := RebuiltSpans(wire, count, keys);
    hide Spans, KeptSpans, FieldsOf, KeptFields, Rebuilt, Padding;
    KeptOfFields(ss, keys);
    FieldsConcat(kept, extra);
  }

  lemma {:induction false} FieldsConcat(a: seq<Span>, b: seq<Span>)
    ensures FieldsOf(a + b) == FieldsOf(a) + FieldsOf(b) && |FieldsOf(b)| == |b|
  {
    hide ValueOf, FieldOf;
    FieldsCount(b);
    if a == [] {
      assert a + b == b;
    } else {
      FieldsConcat(a[1..], b);
      assert (a + b)[1..] == a[1..] + b;
      var x, y, z := [FieldOf(a[0])], FieldsOf(a[1..]), FieldsOf(b);
      assert (x + y) + z == x + (y + z);
    }
  }

  lemma {:induction false} FieldsCount(ss: seq<Span>)
    ensures |FieldsOf(ss)| == |ss|
  {
    if ss != [] { FieldsCount(ss[1..]); }
  }

  /** `removed` is the difference, and filtering a complete region twice is filtering once. */
  lemma FilterIsIdempotent(wire: seq<byte>, count: nat, keys: seq<seq<byte>>)
    requires |Spans(wire, count)| == count
    ensures var (wire', count') := Filtered(wire, count, keys);
            && Removed(wire', count', keys) == 0 && Filtered(wire', count', keys) == (wire', count')
            && |Spans(wire', count')| == count' == count - Removed(wire, count, keys)
  {
    if Removed(wire, count, keys) > 0 {
      var kept := KeptSpans(Spans(wire, count), keys);
      var extra := RebuiltSpans(wire, count, keys);
      KeptAreIn(Spans(wire, count), keys);
      assert kept + [] == kept;
      KeptAgain(kept, keys);
    }
  }

  lemma {:induction false} FoundAgain(wire: seq<byte>, raw: nat)
    ensures Spans(wire, |Spans(wire, raw)|) == Spans(wire, raw)
  {
    FirstSpanFits(wire);
    hide FirstSpan;
    if raw > 0 && FirstSpan(wire).Some? { FoundAgain(wire[SpanLen(FirstSpan(wire).value)..], raw - 1); }
  }

  lemma {:induction false} AllKept(fs: seq<Span>, keys: seq<seq<byte>>)
    requires |KeptSpans(fs, keys)| == |fs|
    ensures KeptSpans(fs, keys) == fs
  {
    if fs != [] { AllKept(fs[1..], keys); }
  }

  /** Main result. Both callers of the filter pass the count that unpacking returned, so for
      every region, whatever the record claims to hold: filtering the region and unpacking it
      gives the unpacked fields filtered, `removed` is the difference, and filtering again
      changes nothing. */
  lemma FilterAsCalled(wire: seq<byte>, raw: nat, max: nat, keys: seq<seq<byte>>)
    requires keys != []
    ensures var fields := Unpacked(wire, raw, max);
            var (wire', n') := Filtered(wire, |fields|, keys);
            && Unpacked(wire', n', max) == KeptFields(fields, keys)
            && n' == |fields| - Removed(wire, |fields|, keys) == |KeptFields(fields, keys)|
            && Removed(wire', n', keys) == 0 && Filtered(wire', n', keys) == (wire', n')
  {
    var ss := Spans(wire, Min(raw, max));
    var n := |ss|;
    FoundAgain(wire, Min(raw, max));
    FieldsCount(ss);
    FilterIsIdempotent(wire, n, keys);
    hide Spans, KeptSpans, FieldsOf, KeptFields, Rebuilt, Padding;
    KeptOfFields(ss, keys);
    FieldsCount(KeptSpans(ss, keys));
    if Removed(wire, n, keys) > 0 {
      FilterCommutesWithUnpack(wire, n, max, keys);
    } else {
      AllKept(ss, keys);
    }
  }

  /** The function alone, given a count nobody checked, can differ: a region that claims
      three fields and holds two, and the kept one takes 10 bytes, so six bytes of padding
      are read as an empty field. */
  lemma CorruptRegionGainsAField()
    ensures exists wire: seq<byte>, count: nat, keys: seq<seq<byte>> ::
              && Removed(wire, count, keys) > 0
              && Unpacked(Filtered(wire, count, keys).0, Filtered(wire, count, keys).1, MAX_FIELDS)
                 != KeptFields(Unpacked(wire, count, MAX_FIELDS), keys)
  {
    var a := Span([1], 4, 0, [7, 7, 7]);
    var b := Span([2], 4, 0, []);
    var keys := [[1]];
    var wire := Region([a, b]) + [];
    SpansSplit([a, b], [], 1, wire);
    TwoSpans(a, b, keys, wire);
    hide Spans, KeptSpans, Region, SpanBytes;
    FilterCommutesWithUnpack(wire, 3, MAX_FIELDS, keys);
  }

  lemma TwoSpans(a: Span, b: Span, keys: seq<seq<byte>>, wire: seq<byte>)
    requires keys == [[1]] && a == Span([1], 4, 0, [7, 7, 7]) && b == Span([2], 4, 0, [])
    requires Spans(wire, 3) == [a, b] + Spans([], 1)
    ensures Removed(wire, 3, keys) == 1 && |Spans(wire, 3)| == 2 && Padding(wire, 3, keys) == 6
  {
    assert Spans([], 1) == [];
    assert [a, b] + [] == [a, b];
    assert [a, b][1..] == [b] && [b][1..] == [] && [a][1..] == [];
    assert KeptSpans([b], keys) == [];
    assert KeptSpans([a, b], keys) == [a];
    assert |Region([a])| == 10;
  }
}
