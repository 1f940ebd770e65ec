/** hpu_fields_serialize and hpu_fields_unpack, and the laws that tie them together. */
module FieldsCodec {
  import opened Bytes
  import opened Fields

  // ---------------------------------------------------------------- fields and spans

  function Tag(v: Value): byte {
    match v
    case I64(_) => 0
    case U64(_) => 1
    case F64(_) => 2
    case Bool(_) => 3
    case Str(_) => 4
    case Other(t, _) => t
  }

  function ValBytes(v: Value): seq<byte> {
    match v
    case I64(b) => LE(b, 8)
    case U64(b) => LE(b, 8)
    case F64(b) => LE(b, 8)
    case Bool(b) => LE(b, 1)
    case Str(s) => s
    case Other(_, b) => LE(b, 8)
  }

  function ValueOf(tag: byte, val: seq<byte>): Value {
    if tag == 0 then I64(FromLE(val))
    else if tag == 1 then U64(FromLE(val))
    else if tag == 2 then F64(FromLE(val))
    else if tag == 3 then Bool(FromLE(val))
    else if tag == 4 then Str(val)
    else Other(tag, FromLE(val))
  }

  function SpanOf(f: Field): Span { Span(f.key, Tag(f.value), 0, ValBytes(f.value)) }

  function FieldOf(s: Span): Field { Field(s.key, ValueOf(s.tag, s.val)) }

  function SpansOf(fs: seq<Field>): seq<Span> {
    if fs == [] then [] else [SpanOf(fs[0])] + SpansOf(fs[1..])
  }

  function FieldsOf(ss: seq<Span>): seq<Field> {
    if ss == [] then [] else [FieldOf(ss[0])] + FieldsOf(ss[1..])
  }

  lemma ValueReadsBack(v: Value)
    requires ValueOk(v) && !v.Other?
    ensures ValueOf(Tag(v), ValBytes(v)) == v
    ensures |ValBytes(v)| <= 8 || v.Str?
  {
    Widths();
    match v
    case I64(b) => LERoundTrip(b, 8);
    case U64(b) => LERoundTrip(b, 8);
    case F64(b) => LERoundTrip(b, 8);
    case Bool(b) => LERoundTrip(b, 1);
    case _ =>
  }

  // ---------------------------------------------------------------- what serializing keeps

  function Min(a: nat, b: nat): nat { if a <= b then a else b }

  /** A named field with a valid type and a key within the limit. */
  predicate Admissible(a: Arg) { a.key.Some? && |a.key.value| <= MAX_KEY && !a.value.Other? }

  predicate TooLong(a: Arg) { a.value.Str? && |a.value.s| > MAX_STR }

  /** The field as it is kept: a long string is cut. */
  function Kept(a: Arg): Field
    requires Admissible(a)
  {
    Field(a.key.value, if TooLong(a) then Str(a.value.s[..MAX_STR]) else a.value)
  }

  /** The kept fields: at most `slots` admissible ones, up to the first that does not fit
      into the `room` left. */
  function Keep(args: seq<Arg>, room: nat, slots: nat): (fs: seq<Field>)
    ensures |fs| <= slots
  {
    if args == [] || slots == 0 then []
    else if !Admissible(args[0]) then Keep(args[1..], room, slots)
    else
      var f := Kept(args[0]);
      var need := SpanLen(SpanOf(f));
      if need > room then [] else [f] + Keep(args[1..], room - need, slots - 1)
  }

  /** How many strings were cut on the way, one that then did not fit included. */
  function Cuts(args: seq<Arg>, room: nat, slots: nat): nat {
    if args == [] || slots == 0 then 0
    else if !Admissible(args[0]) then Cuts(args[1..], room, slots)
    else
      var need := SpanLen(SpanOf(Kept(args[0])));
      (if TooLong(args[0]) then 1 else 0) + if need > room then 0 else Cuts(args[1..], room - need, slots - 1)
  }

  predicate ArgsOk(args: seq<Arg>) { forall a | a in args :: ValueOk(a.value) }

  lemma {:induction false} RegionAppend(fs: seq<Field>, f: Field)
    ensures Region(SpansOf(fs + [f])) == Region(SpansOf(fs)) + SpanBytes(SpanOf(f))
  {
    hide SpanBytes, SpanOf;
    if fs == [] {
      assert (fs + [f])[1..] == [];
    } else {
      RegionAppend(fs[1..], f);
      assert (fs + [f])[1..] == fs[1..] + [f];
    }
  }

  function Zeros(n: nat): (s: seq<byte>)
    ensures |s| == n
  {
    seq(n, _ => 0)
  }

  /** The three memcpys and the header bytes of one field. */
  method WriteSpan(out: array<byte>, len: nat, s: Span)
    requires len + SpanLen(s) <= out.Length
    modifies out
    ensures out[..len + SpanLen(s)] == old(out[..len]) + SpanBytes(s)
  {
    hide LE;
    ghost var m0 := out[..];
    CopyInto(out, len, LE(|s.key|, 2) + [s.tag, s.pad] + LE(|s.val|, 2));
    SpliceTwice(m0, len, LE(|s.key|, 2) + [s.tag, s.pad] + LE(|s.val|, 2), s.key);
    CopyInto(out, len + 6, s.key);
    SpliceTwice(m0, len, LE(|s.key|, 2) + [s.tag, s.pad] + LE(|s.val|, 2) + s.key, s.val);
    CopyInto(out, len + 6 + |s.key|, s.val);
    assert out[..] == Splice(m0, len, SpanBytes(s));
  }

  ghost predicate Walk(args: seq<Arg>, all: nat, i: nat, hit: bool, len: nat, done: seq<Field>, cuts: nat) {
    && i <= |args| && len <= all && |done| <= MAX_FIELDS
    && Keep(args, all, MAX_FIELDS)
       == done + (if hit then [] else Keep(args[i..], all - len, MAX_FIELDS - |done|))
    && Cuts(args, all, MAX_FIELDS)
       == cuts + (if hit then 0 else Cuts(args[i..], all - len, MAX_FIELDS - |done|))
  }

  lemma WalkStarts(args: seq<Arg>, all: nat)
    ensures Walk(args, all, 0, false, 0, [], 0)
  {
    assert args[0..] == args;
  }

  /** A field that is skipped without looking at its size. */
  lemma WalkSkips(args: seq<Arg>, all: nat, i: nat, hit: bool, len: nat, done: seq<Field>, cuts: nat)
    requires Walk(args, all, i, hit, len, done, cuts) && i < |args|
    requires hit || |done| == MAX_FIELDS || !Admissible(args[i])
    ensures Walk(args, all, i + 1, hit, len, done, cuts)
  {
    hide Admissible, Kept;
    assert args[i..][1..] == args[i + 1..];
  }

  lemma WalkTakes(args: seq<Arg>, all: nat, i: nat, len: nat, done: seq<Field>, cuts: nat)
    requires Walk(args, all, i, false, len, done, cuts) && i < |args| && |done| < MAX_FIELDS && Admissible(args[i])
    ensures var need := SpanLen(SpanOf(Kept(args[i]))); var more := cuts + if TooLong(args[i]) then 1 else 0;
            if len + need > all then Walk(args, all, i + 1, true, len, done, more)
            else Walk(args, all, i + 1, false, len + need, done + [Kept(args[i])], more)
  {
    hide Admissible, Kept, SpanOf, TooLong;
    assert args[i..][1..] == args[i + 1..];
  }

  lemma WalkEnds(args: seq<Arg>, all: nat, hit: bool, len: nat, done: seq<Field>, cuts: nat)
    requires Walk(args, all, |args|, hit, len, done, cuts)
    ensures done == Keep(args, all, MAX_FIELDS) && cuts == Cuts(args, all, MAX_FIELDS)
  {
  }

  /** hpu_fields_serialize. */
  method Serialize(args: seq<Arg>, budget: nat, out: array<byte>) returns (ok: bool, len: nat, count: nat, dropped: nat)
    modifies out
    ensures ok <==> out.Length > 0
    ensures ok ==>
              var room := Min(budget, out.Length);
              var kept := Keep(args, room, MAX_FIELDS);
              var region := Region(SpansOf(kept));
              && count == |kept| && count + dropped == |args| + Cuts(args, room, MAX_FIELDS)
              && |region| <= len <= out.Length && len < |region| + 8 && (len % 8 == 0 || len == out.Length)
              && out[..len] == region + Zeros(len - |region|)
  {
    hide Walk, Region, SpansOf, SpanOf, SpanBytes, Keep, Cuts, Zeros;
    len, count, dropped := 0, 0, 0;
    if out.Length == 0 {
      return false, 0, 0, 0;
    }
    ghost var room := Min(budget, out.Length);
    ghost var done: seq<Field>, cuts: nat := [], 0;
    var i, hit := 0, false;
    WalkStarts(args, room);
    EmptyRegion();
    while i < |args|
      invariant i <= |args| && len <= out.Length && len <= budget
      invariant Walk(args, room, i, hit, len, done, cuts)
      invariant count == |done| <= MAX_FIELDS && count + dropped == i + cuts
      invariant out[..len] == Region(SpansOf(done))
    {
      var a := args[i];
      if count >= MAX_FIELDS || hit || a.key.None? || |a.key.value| > MAX_KEY || a.value.Other? {
        WalkSkips(args, room, i, hit, len, done, cuts);
        dropped := dropped + 1;
      } else {
        WalkTakes(args, room, i, len, done, cuts);
        var s := SpanOf(Kept(a));
        if TooLong(a) {
          dropped, cuts := dropped + 1, cuts + 1;
        }
        if len + SpanLen(s) > budget || len + SpanLen(s) > out.Length {
          hit := true;
          dropped := dropped + 1;
        } else {
          WriteSpan(out, len, s);
          RegionAppend(done, Kept(a));
          len, count := len + SpanLen(s), count + 1;
          done := done + [Kept(a)];
        }
      }
      i := i + 1;
    }
    WalkEnds(args, room, hit, len, done, cuts);
    ghost var region := out[..len];
    while len % 8 != 0 && len < out.Length
      invariant |region| <= len <= out.Length && len <= Align8(|region|)
      invariant out[..|region|] == region && forall x | |region| <= x < len :: out[x] == 0
      decreases out.Length - len
    {
      out[len] := 0;
      len := len + 1;
    }
    PaddedRegion(out[..len], region);
    ok := true;
  }

  lemma EmptyRegion()
    ensures Region(SpansOf([])) == []
  {
  }

  lemma PaddedRegion(bytes: seq<byte>, region: seq<byte>)
    requires |region| <= |bytes| && bytes[..|region|] == region && forall x | |region| <= x < |bytes| :: bytes[x] == 0
    ensures bytes == region + Zeros(|bytes| - |region|)
  {
  }

  // ---------------------------------------------------------------- unpacking

  function Unpacked(wire: seq<byte>, count: nat, max: nat): seq<Field> {
    FieldsOf(Spans(wire, Min(count, max)))
  }

  /** hpu_fields_unpack. */
  method Unpack(wire: seq<byte>, count: nat, max: nat) returns (out: seq<Field>)
    ensures out == Unpacked(wire, count, max)
  {
    hide FirstSpan, FieldOf;
    out := [];
    var off: nat, i: nat := 0, 0;
    assert wire[0..] == wire;
    NoFields();
    while i < count && |out| < max && off + 6 <= |wire|
      invariant off <= |wire| && i == |out| <= Min(count, max)
      invariant Unpacked(wire, count, max) == out + FieldsOf(Spans(wire[off..], Min(count, max) - i))
    {
      var first := FirstSpan(wire[off..]);
      SpansFront(wire[off..], Min(count, max) - i);
      if first.None? {
        return;
      }
      assert wire[off..][SpanLen(first.value)..] == wire[off + SpanLen(first.value)..];
      out := out + [FieldOf(first.value)];
      off, i := off + SpanLen(first.value), i + 1;
    }
    ShortEnds(wire[off..], Min(count, max) - i);
  }

  lemma NoFields()
    ensures FieldsOf([]) == []
  {
  }

  lemma SpansFront(wire: seq<byte>, n: nat)
    requires n > 0
    ensures FirstSpan(wire).None? ==> FieldsOf(Spans(wire, n)) == []
    ensures FirstSpan(wire).Some? ==>
              var s := FirstSpan(wire).value;
              SpanLen(s) <= |wire|
              && FieldsOf(Spans(wire, n)) == [FieldOf(s)] + FieldsOf(Spans(wire[SpanLen(s)..], n - 1))
  {
    hide FieldOf;
    if FirstSpan(wire).Some? {
      FirstSpanIsThere(wire);
      var s := FirstSpan(wire).value;
      assert ([s] + Spans(wire[SpanLen(s)..], n - 1))[1..] == Spans(wire[SpanLen(s)..], n - 1);
    }
  }

  lemma ShortEnds(wire: seq<byte>, n: nat)
    requires n == 0 || |wire| < 6
    ensures FieldsOf(Spans(wire, n)) == []
  {
  }

  // ---------------------------------------------------------------- round trip

  lemma {:induction false} KeptAreOk(args: seq<Arg>, room: nat, slots: nat)
    requires ArgsOk(args)
    ensures forall f | f in Keep(args, room, slots) :: ValueOk(f.value) && !f.value.Other? && SpanOk(SpanOf(f))
  {
    if args != [] && slots > 0 {
      assert ArgsOk(args[1..]);
      if !Admissible(args[0]) {
        KeptAreOk(args[1..], room, slots);
      } else {
        var f := Kept(args[0]);
        ValueReadsBack(f.value) by { assert args[0] in args; }
        var need := SpanLen(SpanOf(f));
        if need <= room { KeptAreOk(args[1..], room - need, slots - 1); }
      }
    }
  }

  lemma {:induction false} FieldsReadBack(fs: seq<Field>)
    requires forall f | f in fs :: ValueOk(f.value) && !f.value.Other?
    ensures FieldsOf(SpansOf(fs)) == fs && |SpansOf(fs)| == |fs|
  {
    if fs != [] {
      ValueReadsBack(fs[0].value) by { assert fs[0] in fs; }
      FieldsReadBack(fs[1..]);
      assert SpansOf(fs)[1..] == SpansOf(fs[1..]);
    }
  }

  lemma {:induction false} SpansOfMembers(fs: seq<Field>)
    requires forall f | f in fs :: SpanOk(SpanOf(f))
    ensures forall s | s in SpansOf(fs) :: SpanOk(s)
  {
    if fs != [] {
      SpansOfMembers(fs[1..]);
    }
  }

  /** Unpacking a serialized region gives back exactly the kept fields in order, whatever
      bytes the ring returned behind it. */
  lemma UnpackSerialized(args: seq<Arg>, room: nat, trailing: seq<byte>, max: nat)
    requires ArgsOk(args) && max >= MAX_FIELDS
    ensures var kept := Keep(args, room, MAX_FIELDS);
            Unpacked(Region(SpansOf(kept)) + trailing, |kept|, max) == kept
  {
    var kept := Keep(args, room, MAX_FIELDS);
    KeptAreOk(args, room, MAX_FIELDS);
    FieldsReadBack(kept);
    SpansOfMembers(kept);
    SpansReadBack(SpansOf(kept), trailing, Region(SpansOf(kept)) + trailing);
  }

  /** What is kept fits: the room, the number of fields, and every key and string. */
  lemma {:induction false} KeepFits(args: seq<Arg>, room: nat, slots: nat)
    ensures |Region(SpansOf(Keep(args, room, slots)))| <= room && |Keep(args, room, slots)| <= slots
    ensures forall f | f in Keep(args, room, slots) ::
              |f.key| <= MAX_KEY && (f.value.Str? ==> |f.value.s| <= MAX_STR) && !f.value.Other?
  {
    hide SpanBytes, SpanOf;
    if args != [] && slots > 0 {
      if !Admissible(args[0]) {
        KeepFits(args[1..], room, slots);
      } else {
        var f := Kept(args[0]);
        var need := SpanLen(SpanOf(f));
        if need <= room {
          KeepFits(args[1..], room - need, slots - 1);
          var rest := Keep(args[1..], room - need, slots - 1);
          assert ([f] + rest)[1..] == rest;
          OneMore(f, rest);
        }
      }
    }
  }

  lemma OneMore(f: Field, rest: seq<Field>)
    ensures Region(SpansOf([f] + rest)) == SpanBytes(SpanOf(f)) + Region(SpansOf(rest))
  {
    hide SpanBytes, SpanOf;
    assert ([f] + rest)[1..] == rest;
    assert ([SpanOf(f)] + SpansOf(rest))[1..] == SpansOf(rest);
  }

  function AsFields(args: seq<Arg>): seq<Field>
    requires forall a | a in args :: a.key.Some?
  {
    if args == [] then [] else [Field(args[0].key.value, args[0].value)] + AsFields(args[1..])
  }

  /** Fields that respect every limit are all kept, as they are, and nothing is counted. */
  lemma {:induction false} NothingDroppedWhenItFits(args: seq<Arg>, room: nat, slots: nat)
    requires forall a | a in args ::
               && a.key.Some? && |a.key.value| <= 64 && !a.value.Other? && (a.value.Str? ==> |a.value.s| <= 256)
    requires |args| <= slots && |Region(SpansOf(AsFields(args)))| <= room
    ensures Keep(args, room, slots) == AsFields(args) && Cuts(args, room, slots) == 0
  {
    if args != [] {
      assert args[0] in args && Admissible(args[0]) && !TooLong(args[0]);
      hide SpanBytes, SpanOf, Admissible, TooLong;
      var f := Kept(args[0]);
      KeptAsIs(args[0]);
      OneMore(f, AsFields(args[1..]));
      NothingDroppedWhenItFits(args[1..], room - SpanLen(SpanOf(f)), slots - 1);
    }
  }

  lemma KeptAsIs(a: Arg)
    requires Admissible(a) && !TooLong(a)
    ensures a.key.Some? && Kept(a) == Field(a.key.value, a.value)
  {
  }

  /** Has a key of at most 64 bytes and a known type. */
  predicate Usable(a: Arg) { a.key.Some? && |a.key.value| <= 64 && !a.value.Other? }

  predicate Cut(a: Arg) { Usable(a) && a.value.Str? && |a.value.s| > 256 }

  /** The usable fields, strings cut to 256 bytes. */
  function UsableFields(args: seq<Arg>): seq<Field> {
    if args == [] then []
    else
      var a := args[0];
      (if Usable(a) then [Field(a.key.value, if Cut(a) then Str(a.value.s[..256]) else a.value)] else [])
      + UsableFields(args[1..])
  }

  function CutOnes(args: seq<Arg>): nat {
    if args == [] then 0 else (if Cut(args[0]) then 1 else 0) + CutOnes(args[1..])
  }

  lemma OneArgMore(a: Arg, args: seq<Arg>)
    ensures UsableFields([a] + args) == (if Usable(a) then [Kept(a)] else []) + UsableFields(args)
    ensures CutOnes([a] + args) == (if Usable(a) && TooLong(a) then 1 else 0) + CutOnes(args)
  {
    assert ([a] + args)[1..] == args;
  }

  /** Of the usable fields `seen` so far `kept` are kept: all, at the end or with all slots
      taken, or all but the last, which does not fit behind the others. */
  predicate Stops(kept: seq<Field>, seen: seq<Field>, end: bool, room: nat, slots: nat) {
    || (seen == kept && (end || |kept| == slots))
    || (|seen| == |kept| + 1 && |kept| < slots && seen[..|kept|] == kept && |Region(SpansOf(seen))| > room)
  }

  lemma StopsLater(f: Field, kept: seq<Field>, seen: seq<Field>, end: bool, room: nat, slots: nat)
    requires slots > 0 && SpanLen(SpanOf(f)) <= room && Stops(kept, seen, end, room - SpanLen(SpanOf(f)), slots - 1)
    ensures Stops([f] + kept, [f] + seen, end, room, slots)
  {
    hide SpanOf, SpanBytes;
    OneMore(f, seen);
    if seen != kept { assert ([f] + seen)[..|[f] + kept|] == [f] + seen[..|kept|]; }
  }

  /** Serializing looks at the first `m` fields. It keeps the usable ones among them and
      counts the strings it cut, and it stops at the end, when all slots are taken, or behind
      the first usable field that does not fit behind those it kept. */
  lemma {:induction false} KeepIsLongest(args: seq<Arg>, room: nat, slots: nat) returns (m: nat)
    ensures m <= |args| && Cuts(args, room, slots) == CutOnes(args[..m])
    ensures Stops(Keep(args, room, slots), UsableFields(args[..m]), m == |args|, room, slots)
  {
    hide SpanOf, SpanBytes, Usable, Cut, Kept, TooLong;
    if args == [] || slots == 0 {
      m := 0;
      assert args[..0] == [];
    } else {
      var a, others := args[0], args[1..];
      SameTest(a);
      hide Admissible;
      if !Usable(a) {
        m := KeepIsLongest(others, room, slots);
        OneArgMore(a, others[..m]);
        assert args[..m + 1] == [a] + others[..m];
        hide UsableFields, Stops;
        assert [] + UsableFields(others[..m]) == UsableFields(others[..m]);
        m := m + 1;
      } else {
        var f := Kept(a);
        var need := SpanLen(SpanOf(f));
        if need > room {
          m := 1;
          assert args[..1] == [a] + [];
          OneArgMore(a, []);
          OneMore(f, []);
        } else {
          m := KeepIsLongest(others, room - need, slots - 1);
          OneArgMore(a, others[..m]);
          assert args[..m + 1] == [a] + others[..m];
          hide UsableFields, Stops;
          StopsLater(f, Keep(others, room - need, slots - 1), UsableFields(others[..m]), m == |others|, room, slots);
          m := m + 1;
        }
      }
    }
  }

  lemma SameTest(a: Arg)
    ensures Usable(a) == Admissible(a)
  {
  }
}
