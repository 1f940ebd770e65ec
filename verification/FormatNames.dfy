/** How a template reads, case by case: which text names which value, with which modifier,
    and which text is illegal. Together the cases settle the reading of every template. */
module FormatNames {
  import opened Bytes
  import opened Options
  import JsonText
  import opened FormatTemplate
  import opened FormatLine

  /** The documented long names. */
  predicate Named(name: string, k: Kind) {
    || (name == "level" && k == Level) || (name == "time" && k == Time) || (name == "pid" && k == Pid)
    || (name == "tid" && k == Tid) || (name == "file" && k == File) || (name == "line" && k == LineNumber)
    || (name == "func" && k == Func) || (name == "msg" && k == Text) || (name == "category" && k == Category)
    || (name == "n" && k == Newline)
  }

  /** The documented letters. */
  predicate Lettered(c: byte, k: Kind) {
    || (c == 'l' as int && k == Level) || (c == 't' as int && k == Time) || (c == 'g' as int && k == TimeUtc)
    || (c == 'p' as int && k == Pid) || (c == 'i' as int && k == Tid) || (c == 'f' as int && k == File)
    || (c == 'n' as int && k == Newline) || (c == 'c' as int && k == Category) || (c == 'm' as int && k == Text)
    || (c == 'v' as int && k == FieldList)
  }

  predicate Begins(s: seq<byte>, name: string) {
    |name| <= |s| && forall k | 0 <= k < |name| :: s[k] == name[k] as int
  }

  /** What a placeholder asks for: [-][digits][.digits]. */
  datatype Spec = Spec(left: bool, width: seq<byte>, prec: Option<seq<byte>>)

  predicate AllDigits(s: seq<byte>) { forall c | c in s :: '0' as int <= c <= '9' as int }

  predicate SpecOk(m: Spec) { AllDigits(m.width) && (m.prec.Some? ==> AllDigits(m.prec.value)) }

  function SpecBytes(m: Spec): seq<byte> {
    (if m.left then ['-' as int] else []) + m.width + if m.prec.Some? then ['.' as int] + m.prec.value else []
  }

  predicate NoSpec(m: Spec) { !m.left && m.width == [] && m.prec.None? }

  /** The modifier ends in front of `tail`. */
  predicate EndsAt(m: Spec, tail: seq<byte>) {
    tail == []
    || (!('0' as int <= tail[0] <= '9' as int)
        && (m.prec.None? ==> tail[0] != '.' as int) && (NoSpec(m) ==> tail[0] != '-' as int))
  }

  function ModOf(m: Spec): Mod
    requires SpecOk(m)
  {
    Mod(m.left, DigitsValue(m.width, 10), m.prec.Some?, if m.prec.Some? then DigitsValue(m.prec.value, 10) else 0)
  }

  /** Numbers up to 128, and neither a newline nor the field list. */
  predicate Allowed(m: Spec, k: Kind)
    requires SpecOk(m)
  {
    NoSpec(m)
    || (k != Newline && k != Kind.FieldList
        && DigitsValue(m.width, 10) <= 128 && (m.prec.Some? ==> DigitsValue(m.prec.value, 10) <= 128))
  }

  /** The pieces in front of those of the rest, if that is legal. */
  function Before(ps: seq<Piece>, rest: seq<byte>): Option<seq<Piece>> {
    match Read(rest, 0) case None => None case Some(qs) => Some(ps + qs)
  }

  // ---------------------------------------------------------------- reading is local

  lemma {:induction false} NumberLocal(a: seq<byte>, b: seq<byte>, i: nat, acc: nat)
    requires i <= |b|
    ensures Number(a + b, |a| + i, acc) == (Number(b, i, acc).0, |a| + Number(b, i, acc).1)
    decreases |b| - i
  {
    if i < |b| && IsDigit(b[i]) { NumberLocal(a, b, i + 1, acc * 10 + (b[i] - 0x30)); }
  }

  lemma ModLocal(a: seq<byte>, b: seq<byte>, i: nat)
    requires i <= |b|
    ensures ModAt(a + b, |a| + i) == (ModAt(b, i).0, |a| + ModAt(b, i).1)
  {
    hide Number;
    var j := if i < |b| && b[i] == MINUS then i + 1 else i;
    NumberLocal(a, b, j, 0);
    var k := Number(b, j, 0).1;
    if k < |b| { NumberLocal(a, b, k + 1, 0); }
  }

  lemma NameAtLocal(a: seq<byte>, b: seq<byte>, i: nat, name: string)
    requires i <= |b|
    ensures NameAt(a + b, |a| + i, name) <==> NameAt(b, i, name)
  {
  }

  lemma NameLocal(a: seq<byte>, b: seq<byte>, i: nat)
    requires i <= |b|
    ensures NameOf(a + b, |a| + i) == NameOf(b, i)
  {
    hide NameAt, ShortName;
    NameAtLocal(a, b, i, "level");
    NameAtLocal(a, b, i, "time");
    NameAtLocal(a, b, i, "pid");
    NameAtLocal(a, b, i, "tid");
    NameAtLocal(a, b, i, "file");
    NameAtLocal(a, b, i, "line");
    NameAtLocal(a, b, i, "func");
    NameAtLocal(a, b, i, "msg");
    NameAtLocal(a, b, i, "category");
    NameAtLocal(a, b, i, "n");
  }

  lemma PercentLocal(a: seq<byte>, b: seq<byte>, i: nat)
    requires i < |b| && b[i] == PERCENT
    ensures PercentAt(a + b, |a| + i) == PercentAt(b, i)
  {
    hide ModAt, NameOf, ModSupported, Overflows;
    ModLocal(a, b, i + 1);
    NameLocal(a, b, ModAt(b, i + 1).1);
  }

  /** What is read behind a text does not depend on it. */
  lemma {:induction false} ReadLocal(a: seq<byte>, b: seq<byte>, i: nat)
    requires i <= |b|
    ensures Read(a + b, |a| + i) == Read(b, i)
    decreases |b| - i
  {
    hide PercentAt;
    if i < |b| {
      if b[i] != PERCENT {
        ReadLocal(a, b, i + 1);
      } else {
        PercentLocal(a, b, i);
        match PercentAt(b, i)
        case Illegal =>
        case DoublePercent => ReadLocal(a, b, i + 2);
        case Placeholder(k, m, n) => ReadLocal(a, b, i + n);
      }
    }
  }

  // ---------------------------------------------------------------- modifiers

  lemma {:induction false} NumberIs(t: seq<byte>, i: nat, ds: seq<byte>, j: nat)
    requires i + |ds| <= |t| && t[i..i + |ds|] == ds && AllDigits(ds) && j <= |ds|
    requires i + |ds| < |t| ==> !IsDigit(t[i + |ds|])
    ensures Number(t, i + j, DigitsValue(ds[..j], 10)) == (DigitsValue(ds, 10), i + |ds|)
    decreases |ds| - j
  {
    hide DigitsValue;
    if j == |ds| {
      assert ds[..j] == ds;
    } else {
      NumberIs(t, i, ds, j + 1);
      assert t[i + j] == ds[j] && ds[j] in ds;
      assert ds[..j + 1] == ds[..j] + [ds[j]];
      assert JsonText.Digit(ds[j]) == Some(ds[j] - 0x30);
      LastDigit(ds[..j], ds[j], ds[j] - 0x30, 10);
    }
  }

  lemma NumberHere(t: seq<byte>, i: nat, ds: seq<byte>)
    requires i + |ds| <= |t| && t[i..i + |ds|] == ds && AllDigits(ds)
    requires i + |ds| < |t| ==> !IsDigit(t[i + |ds|])
    ensures Number(t, i, 0) == (DigitsValue(ds, 10), i + |ds|)
  {
    NumberIs(t, i, ds, 0);
    assert ds[..0] == [];
    NoDigits(10);
  }

  /** The three parts of a modifier, where they stand. */
  lemma Parts(m: Spec, tail: seq<byte>, t: seq<byte>)
    requires t == [PERCENT] + SpecBytes(m) + tail
    ensures var i := if m.left then 2 else 1; var j := i + |m.width|;
            && |t| == 1 + |SpecBytes(m)| + |tail|
            && (if m.left then t[1] == '-' as int else SpecBytes(m) == [] || t[1] == SpecBytes(m)[0])
            && j <= |t| && t[i..j] == m.width
            && (m.prec.None? ==> j == 1 + |SpecBytes(m)|)
            && (m.prec.Some? ==>
                  var k := j + 1;
                  && k + |m.prec.value| == 1 + |SpecBytes(m)| <= |t|
                  && t[j] == '.' as int && t[k..k + |m.prec.value|] == m.prec.value)
            && t[1 + |SpecBytes(m)|..] == tail
            && (tail != [] ==> t[1 + |SpecBytes(m)|] == tail[0])
  {
  }

  lemma ModReads(m: Spec, tail: seq<byte>, t: seq<byte>)
    requires SpecOk(m) && EndsAt(m, tail) && t == [PERCENT] + SpecBytes(m) + tail
    ensures ModAt(t, 1) == (ModOf(m), 1 + |SpecBytes(m)|)
  {
    Parts(m, tail, t);
    assert AllDigits(m.width) && (m.prec.Some? ==> AllDigits(m.prec.value));
    hide SpecBytes, Number, DigitsValue, AllDigits, SpecOk;
    var i := if m.left then 2 else 1;
    var j := i + |m.width|;
    FirstIsFlag(m, tail, t);
    NumberHere(t, i, m.width);
    if m.prec.Some? { NumberHere(t, j + 1, m.prec.value); }
  }

  lemma FirstIsFlag(m: Spec, tail: seq<byte>, t: seq<byte>)
    requires SpecOk(m) && EndsAt(m, tail) && t == [PERCENT] + SpecBytes(m) + tail
    ensures 1 < |t| && t[1] == '-' as int <==> m.left
  {
    if m.left || 1 >= |t| {}
    else if m.width != [] { assert t[1] == m.width[0] && m.width[0] in m.width; }
    else if m.prec.Some? { assert t[1] == '.' as int; }
    else { assert t[1] == tail[0]; }
  }

  // ---------------------------------------------------------------- names

  lemma NamesApart(t: seq<byte>, i: nat, name: string, k: Kind, other: string, o: Kind)
    requires Named(name, k) && Named(other, o) && NameAt(t, i, name) && NameAt(t, i, other)
    ensures name == other && k == o
  {
    assert t[i] == name[0] as int && t[i] == other[0] as int;
    if |name| > 1 && |other| > 1 {
      assert t[i + 1] == name[1] as int && t[i + 1] == other[1] as int;
      assert t[i + 2] == name[2] as int && t[i + 2] == other[2] as int;
    }
  }

  lemma LongNameNamed(t: seq<byte>, i: nat) returns (name: string)
    requires LongName(t, i).Some?
    ensures Named(name, LongName(t, i).value.0) && |name| == LongName(t, i).value.1 && NameAt(t, i, name)
  {
    hide NameAt;
    if NameAt(t, i, "level") { name := "level"; }
    else if NameAt(t, i, "time") { name := "time"; }
    else if NameAt(t, i, "pid") { name := "pid"; }
    else if NameAt(t, i, "tid") { name := "tid"; }
    else if NameAt(t, i, "file") { name := "file"; }
    else if NameAt(t, i, "line") { name := "line"; }
    else if NameAt(t, i, "func") { name := "func"; }
    else if NameAt(t, i, "msg") { name := "msg"; }
    else if NameAt(t, i, "category") { name := "category"; }
    else { name := "n"; }
  }

  lemma LongNameFound(t: seq<byte>, i: nat, name: string, k: Kind)
    requires Named(name, k) && NameAt(t, i, name)
    ensures LongName(t, i).Some?
  {
    hide NameAt;
  }

  lemma LongNameIs(t: seq<byte>, i: nat, name: string, k: Kind)
    requires Named(name, k) && NameAt(t, i, name)
    ensures LongName(t, i) == Some((k, |name|))
  {
    LongNameFound(t, i, name, k);
    var other := LongNameNamed(t, i);
    hide NameAt, LongName, Named;
    NamesApart(t, i, name, k, other, LongName(t, i).value.0);
  }

  /** No documented long name stands at the front. */
  ghost predicate NoLongName(s: seq<byte>) { forall name, k | Named(name, k) :: !Begins(s, name) }

  lemma NameHere(a: seq<byte>, tail: seq<byte>, name: string)
    ensures NameAt(a + tail, |a|, name) <==> Begins(tail, name)
  {
    NameAtLocal(a, tail, 0, name);
  }

  lemma NoLongNameHere(a: seq<byte>, tail: seq<byte>)
    ensures LongName(a + tail, |a|).None? <==> NoLongName(tail)
  {
    hide NameAt, LongName, Begins, Named;
    if LongName(a + tail, |a|).Some? {
      var name := LongNameNamed(a + tail, |a|);
      NameHere(a, tail, name);
    }
    forall name, k | Named(name, k) && Begins(tail, name) ensures LongName(a + tail, |a|).Some? {
      NameHere(a, tail, name);
      LongNameFound(a + tail, |a|, name, k);
    }
  }

  lemma LetterIs(c: byte, k: Kind)
    requires Lettered(c, k)
    ensures ShortName(c) == Some(k) && c != PERCENT
  {
  }

  ghost predicate NoLetter(c: byte) { forall k :: !Lettered(c, k) }

  lemma NoLetterHere(c: byte)
    ensures ShortName(c).None? <==> NoLetter(c)
  {
    if ShortName(c).Some? { assert Lettered(c, ShortName(c).value); }
  }

  // ---------------------------------------------------------------- the cases

  lemma PlainWhen(m: Spec)
    ensures SpecBytes(m) == [] <==> NoSpec(m)
  {
  }

  /** What stands behind the '%'. */
  lemma PercentIs(m: Spec, tail: seq<byte>, t: seq<byte>)
    requires SpecOk(m) && EndsAt(m, tail) && t == [PERCENT] + SpecBytes(m) + tail
    ensures var b := 1 + |SpecBytes(m)|;
            PercentAt(t, 0)
            == match NameOf(t, b)
               case Some((k, n)) =>
                 if Allowed(m, k) then Placeholder(k, ModOf(m), b + n) else Illegal
               case None => if NoSpec(m) && b < |t| && t[b] == PERCENT then DoublePercent else Illegal
  {
    ModReads(m, tail, t);
    PlainWhen(m);
    NoDigits(10);
    hide NameOf, ModAt, SpecBytes, DigitsValue, EndsAt, SpecOk;
    var r := NameOf(t, 1 + |SpecBytes(m)|);
    if r.Some? { assert r.value.0 != Literal; }
  }

  /** A placeholder named at `tail` by `n` bytes. */
  lemma ValueReads(m: Spec, k: Kind, n: nat, tail: seq<byte>)
    requires SpecOk(m) && EndsAt(m, tail) && n <= |tail|
    requires NameOf([PERCENT] + SpecBytes(m) + tail, 1 + |SpecBytes(m)|) == Some((k, n))
    ensures Read([PERCENT] + SpecBytes(m) + tail, 0)
            == if Allowed(m, k) then Before([Value(k, ModOf(m))], tail[n..]) else None
  {
    hide NameOf, ModAt, PercentAt, SpecBytes, Allowed, EndsAt, SpecOk, ModOf;
    var t := [PERCENT] + SpecBytes(m) + tail;
    PercentIs(m, tail, t);
    var front := t[..1 + |SpecBytes(m)| + n];
    assert t == front + tail[n..];
    ReadLocal(front, tail[n..], 0);
  }

  /** A long name: the value is read, if the modifier is allowed for it, and then the rest. */
  lemma LongNameReads(m: Spec, name: string, k: Kind, tail: seq<byte>)
    requires SpecOk(m) && Named(name, k) && Begins(tail, name)
    ensures Read(['%' as int] + SpecBytes(m) + tail, 0)
            == if Allowed(m, k) then Before([Value(k, ModOf(m))], tail[|name|..]) else None
  {
    assert EndsAt(m, tail) by { assert tail[0] == name[0] as int; }
    var front := [PERCENT] + SpecBytes(m);
    NameHere(front, tail, name);
    LongNameIs(front + tail, |front|, name, k);
    hide Named, NameAt, Begins, SpecBytes, EndsAt, SpecOk, LongName, Read;
    ValueReads(m, k, |name|, tail);
  }

  /** A letter, where no long name stands: likewise. */
  lemma LetterReads(m: Spec, k: Kind, tail: seq<byte>)
    requires SpecOk(m) && tail != [] && Lettered(tail[0], k) && NoLongName(tail)
    ensures Read(['%' as int] + SpecBytes(m) + tail, 0)
            == if Allowed(m, k) then Before([Value(k, ModOf(m))], tail[1..]) else None
  {
    assert EndsAt(m, tail);
    var front := [PERCENT] + SpecBytes(m);
    NoLongNameHere(front, tail);
    LetterIs(tail[0], k);
    hide NameAt, SpecBytes, EndsAt, SpecOk, LongName, Read, Lettered, NoLongName;
    assert (front + tail)[|front|] == tail[0];
    ValueReads(m, k, 1, tail);
  }

  lemma NoNameHere(front: seq<byte>, tail: seq<byte>)
    requires NoLongName(tail) && (tail != [] ==> NoLetter(tail[0]))
    ensures NameOf(front + tail, |front|).None?
  {
    hide LongName, NoLongName, ShortName, NoLetter;
    NoLongNameHere(front, tail);
    if tail != [] {
      assert (front + tail)[|front|] == tail[0];
      NoLetterHere(tail[0]);
    }
  }

  /** "%%" stands for its two bytes, and nothing else without a name is legal. */
  lemma NoNameReads(m: Spec, tail: seq<byte>)
    requires SpecOk(m) && EndsAt(m, tail) && NoLongName(tail) && (tail != [] ==> NoLetter(tail[0]))
    ensures Read(['%' as int] + SpecBytes(m) + tail, 0)
            == if NoSpec(m) && tail != [] && tail[0] == '%' as int
               then Before([Byte('%' as int), Byte('%' as int)], tail[1..]) else None
  {
    hide NameOf, ModAt, PercentAt, Allowed, EndsAt, SpecOk, NoLongName, NoLetter;
    var front := [PERCENT] + SpecBytes(m);
    var t := front + tail;
    NoNameHere(front, tail);
    PercentIs(m, tail, t);
    PlainWhen(m);
    hide SpecBytes;
    if tail != [] {
      assert t[|front|] == tail[0];
      if NoSpec(m) {
        assert t == t[..2] + tail[1..];
        ReadLocal(t[..2], tail[1..], 0);
      }
    }
  }

  /** Any other byte stands for itself, and the empty template for nothing. */
  lemma ByteReads(c: byte, rest: seq<byte>)
    ensures Read([], 0) == Some([])
    ensures c != '%' as int ==> Read([c] + rest, 0) == Before([Byte(c)], rest)
  {
    ReadLocal([c], rest, 0);
  }

  lemma {:induction false} DigitsSplit(s: seq<byte>) returns (ds: seq<byte>, rest: seq<byte>)
    ensures s == ds + rest && AllDigits(ds) && (rest != [] ==> !('0' as int <= rest[0] <= '9' as int))
  {
    if s == [] || !('0' as int <= s[0] <= '9' as int) {
      ds, rest := [], s;
    } else {
      ds, rest := DigitsSplit(s[1..]);
      ds := [s[0]] + ds;
    }
  }

  lemma Joined(flag: seq<byte>, ws: seq<byte>, dot: seq<byte>, tail: seq<byte>)
    ensures ['%' as int] + (flag + ws + dot) + tail == ['%' as int] + (flag + (ws + (dot + tail)))
  {
  }

  /** These are all the cases: what follows a '%' is a modifier, perhaps an empty one, and a
      tail in front of which it ends. */
  lemma EveryPlaceholderSplits(t: seq<byte>) returns (m: Spec, tail: seq<byte>)
    requires t != [] && t[0] == '%' as int
    ensures SpecOk(m) && EndsAt(m, tail) && t == ['%' as int] + SpecBytes(m) + tail
  {
    hide AllDigits;
    var left := |t| > 1 && t[1] == '-' as int;
    var flag: seq<byte> := if left then ['-' as int] else [];
    var s := t[1 + |flag|..];
    assert t == ['%' as int] + (flag + s);
    var ws, rest := DigitsSplit(s);
    var dot: seq<byte> := [];
    m, tail := Spec(left, ws, None), rest;
    if rest != [] && rest[0] == '.' as int {
      var ps, last := DigitsSplit(rest[1..]);
      m, tail, dot := Spec(left, ws, Some(ps)), last, ['.' as int] + ps;
      assert rest == dot + tail;
    } else if NoSpec(m) && tail != [] {
      assert s == tail;
    }
    Joined(flag, ws, dot, tail);
    assert SpecBytes(m) == flag + ws + dot;
  }
}
