/** The field lists of the renderer, read back: the json member as a JSON object, and the
    text form as words of the shape key=value. */
module FormatFields {
  import opened Bytes
  import opened Options
  import opened JsonText
  import opened JsonObject
  import opened Fields
  import opened FieldsCodec
  import opened FormatLine

  /** `t` is the decimal spelling of `v`. */
  predicate SpellsInt(t: seq<byte>, v: int) {
    var a := if t != [] && t[0] == '-' as int then t[1..] else t;
    && Lead(a) == |a| > 0 && (a[0] == '0' as int ==> |a| == 1)
    && v == if t[0] == '-' as int then 0 - DigitsValue(a, 10) else DigitsValue(a, 10)
  }

  /** The value of 64 bits as a two's complement number. */
  function Signed(bits: nat): int {
    if bits < 0x8000_0000_0000_0000 then bits else bits - 0x1_0000_0000_0000_0000
  }

  // ---------------------------------------------------------------- numbers

  lemma {:induction false} DigitsAreLead(v: nat)
    ensures var d := Digits(v, 10); Lead(d) == |d| > 0 && (d[0] == '0' as int ==> v == 0 && |d| == 1)
    ensures forall c | c in Digits(v, 10) :: 0x30 <= c <= 0x39
  {
    if v < 10 {
      assert Digits(v, 10)[1..] == [];
    } else {
      DigitsAreLead(v / 10);
      var d, last := Digits(v / 10, 10), Hex(v % 10);
      assert Digits(v, 10) == d + [last] && d[0] == (d + [last])[0];
      AllLead(d + [last]);
    }
  }

  lemma {:induction false} AllLead(s: seq<byte>)
    requires forall c | c in s :: 0x30 <= c <= 0x39
    ensures Lead(s) == |s|
  {
    if s != [] {
      assert s[0] in s && forall c | c in s[1..] :: c in s;
      AllLead(s[1..]);
    }
  }

  lemma {:induction false} LittleEndianFits(s: seq<byte>)
    ensures FromLE(s) < Pow256(|s|)
  {
    if s != [] { LittleEndianFits(s[1..]); }
  }

  lemma {:induction false} FetchLength(rest: seq<byte>, n: nat, env: Env)
    ensures |FetchBytes(rest, n, env)| == n
  {
    if n > 0 { FetchLength(rest, n - 1, env); }
  }

  lemma FetchFits(rest: seq<byte>, env: Env)
    ensures Fetch(rest, 8, env) < 0x1_0000_0000_0000_0000
  {
    Widths();
    FetchLength(rest, 8, env);
    LittleEndianFits(FetchBytes(rest, 8, env));
  }

  lemma NumbersSpell(bits: nat)
    requires bits < 0x1_0000_0000_0000_0000
    ensures SpellsInt(Digits(bits, 10), bits) && SpellsInt(SignedText(bits), Signed(bits))
  {
    hide Digits, DigitsValue, Lead;
    DigitsAreLead(bits);
    NumberReadsBack(bits, 10);
    assert Digits(bits, 10)[0] in Digits(bits, 10);
    if bits >= 0x8000_0000_0000_0000 {
      var m := 0x1_0000_0000_0000_0000 - bits;
      DigitsAreLead(m);
      NumberReadsBack(m, 10);
      assert SignedText(bits)[1..] == Digits(m, 10);
    }
  }

  lemma IntIsNumeral(t: seq<byte>, v: int)
    requires SpellsInt(t, v)
    ensures IsNumeral(t) && !Spells(t, "true") && !Spells(t, "false")
  {
    var a := if t[0] == '-' as int then t[1..] else t;
    assert a[Lead(a)..] == [];
  }

  // ---------------------------------------------------------------- json

  /** `v` is the value of the entry `s`, whose bytes begin at the front of `rest`. */
  predicate Means(v: Json, s: Span, rest: seq<byte>, env: Env) {
    if s.tag == 0 then v.Numeral? && SpellsInt(v.text, Signed(Fetch(rest, 8, env)))
    else if s.tag == 1 then v.Numeral? && SpellsInt(v.text, Fetch(rest, 8, env))
    else if s.tag == 2 then v == Numeral(env.float(Fetch(rest, 8, env)))
    else if s.tag == 3 then v == Truth(Fetch(rest, 4, env) != 0)
    else s.tag == 4 && v == Chars(s.val)
  }

  /** The members are the entries of the region, in order. */
  predicate Lists(ms: seq<Member>, wire: seq<byte>, n: nat, env: Env)
    decreases n
  {
    if n == 0 || FirstSpan(wire).None? then ms == []
    else
      var s := FirstSpan(wire).value;
      && ms != [] && ms[0].key == s.key && Means(ms[0].value, s, wire[6 + |s.key|..], env)
      && Lists(ms[1..], wire[SpanLen(s)..], n - 1, env)
  }

  /** A known type, and if it is a double one whose text is a JSON number: not nan or inf. */
  predicate Printable(s: Span, rest: seq<byte>, env: Env) {
    s.tag <= 4 && (s.tag == 2 ==> IsNumeral(env.float(Fetch(rest, 8, env))))
  }

  predicate AllPrintable(wire: seq<byte>, n: nat, env: Env)
    decreases n
  {
    n == 0 || FirstSpan(wire).None?
    || (var s := FirstSpan(wire).value;
        Printable(s, wire[6 + |s.key|..], env) && AllPrintable(wire[SpanLen(s)..], n - 1, env))
  }

  lemma NumeralReads(t: seq<byte>, rest: seq<byte>)
    requires IsNumeral(t) && !Spells(t, "true") && !Spells(t, "false") && rest != [] && Ends(rest[0])
    ensures ReadValue(t + rest) == Some((Numeral(t), rest))
  {
    NumeralIsSolid(t);
    hide IsNumeral, ReadValue;
    assert t[0] in t;
    TokenReads(t, rest, t + rest);
  }

  lemma NumeralIsNoWord(t: seq<byte>)
    requires IsNumeral(t)
    ensures !Spells(t, "true") && !Spells(t, "false")
  {
  }

  lemma TruthReads(b: bool, rest: seq<byte>)
    requires rest != [] && Ends(rest[0])
    ensures ReadValue((if b then TRUE_TEXT else FALSE_TEXT) + rest) == Some((Truth(b), rest))
  {
    var t := if b then TRUE_TEXT else FALSE_TEXT;
    assert Spells(t, "true") == b && Spells(t, "false") == !b;
    hide ReadValue, Spells;
    TokenReads(t, rest, t + rest);
  }

  /** The text of a value, without separator and key. */
  function ValueText(s: Span, rest: seq<byte>, env: Env): seq<byte> {
    if s.tag != 4 then ScalarText(s.tag, rest, env) else [QUOTE] + Escaped(s.val) + [QUOTE]
  }

  lemma ValueReads(s: Span, at: seq<byte>, env: Env, rest: seq<byte>) returns (v: Json)
    requires Printable(s, at, env) && rest != [] && Ends(rest[0])
    ensures Means(v, s, at, env) && ReadValue(ValueText(s, at, env) + rest) == Some((v, rest))
  {
    hide IsNumeral, ReadValue, Fetch, Digits, SignedText, SpellsInt, Spells, Escaped;
    FetchFits(at, env);
    var t := ScalarText(s.tag, at, env);
    if s.tag == 4 {
      v := Chars(s.val);
      CharsRead(s.val, rest, ValueText(s, at, env) + rest);
    } else if s.tag == 3 {
      v := Truth(Fetch(at, 4, env) != 0);
      TruthReads(v.b, rest);
    } else {
      v := Numeral(t);
      var bits := Fetch(at, 8, env);
      NumbersSpell(bits);
      if s.tag == 2 { NumeralIsNoWord(t); }
      else { IntIsNumeral(t, if s.tag == 0 then Signed(bits) else bits); }
      NumeralReads(t, rest);
    }
  }

  lemma LaterFields(wire: seq<byte>, n: nat, env: Env)
    ensures FieldsFrom(wire, n, true, env, false)
            == if n == 0 || FirstSpan(wire).None? then [] else [COMMA] + FieldsFrom(wire, n, true, env, true)
  {
    hide Escaped, ScalarText, FirstSpan;
    if n > 0 && FirstSpan(wire).Some? {
      OneJsonField(wire, n, env, true);
      OneJsonField(wire, n, env, false);
    }
  }

  lemma JsonFieldText(s: Span, at: seq<byte>, env: Env, first: bool)
    ensures FieldText(s, at, true, env, first)
            == (if first then [] else [COMMA])
               + ([QUOTE] + Escaped(s.key) + [QUOTE, 0x3A] + ValueText(s, at, env))
  {
    hide Escaped, ScalarText;
  }

  lemma Regroup(sep: seq<byte>, member: seq<byte>, others: seq<byte>)
    ensures (sep + member) + others == sep + (member + others)
  {
  }

  /** The first entry's text and the others'. */
  lemma OneJsonField(wire: seq<byte>, n: nat, env: Env, first: bool)
    requires n > 0 && FirstSpan(wire).Some?
    ensures var s := FirstSpan(wire).value;
            && 6 + |s.key| <= SpanLen(s) <= |wire|
            && FieldsFrom(wire, n, true, env, first)
               == (if first then [] else [COMMA])
                  + (([QUOTE] + Escaped(s.key) + [QUOTE, 0x3A] + ValueText(s, wire[6 + |s.key|..], env))
                     + FieldsFrom(wire[SpanLen(s)..], n - 1, true, env, false))
  {
    hide Escaped, ValueText, FieldText, FirstSpan;
    FirstSpanIsThere(wire);
    var s := FirstSpan(wire).value;
    var at := wire[6 + |s.key|..];
    JsonFieldText(s, at, env, first);
    Regroup(if first then [] else [COMMA], [QUOTE] + Escaped(s.key) + [QUOTE, 0x3A] + ValueText(s, at, env),
            FieldsFrom(wire[SpanLen(s)..], n - 1, true, env, false));
  }

  lemma {:induction false} MembersRead(wire: seq<byte>, n: nat, env: Env, more: seq<byte>) returns (ms: seq<Member>)
    requires n > 0 && FirstSpan(wire).Some? && AllPrintable(wire, n, env)
    ensures Lists(ms, wire, n, env)
    ensures ReadMembers(FieldsFrom(wire, n, true, env, true) + ([0x7D] + more)) == Some((ms, more))
    decreases n
  {
    hide FieldsFrom, Escaped, ReadMembers, ReadValue, ValueText, FirstSpan, Means, Printable;
    var s := FirstSpan(wire).value;
    OneJsonField(wire, n, env, true);
    var at, next := wire[6 + |s.key|..], wire[SpanLen(s)..];
    LaterFields(next, n - 1, env);
    var tail := [0x7D] + more;
    assert tail[1..] == more;
    var others: seq<Member> := [];
    var rest := tail;
    if n > 1 && FirstSpan(next).Some? {
      others := MembersRead(next, n - 1, env, more);
      var inner := FieldsFrom(next, n - 1, true, env, true) + tail;
      rest := [COMMA] + inner;
      assert rest[1..] == inner;
    }
    var v := ValueReads(s, at, env, rest);
    var member := [QUOTE] + Escaped(s.key) + [QUOTE, 0x3A] + ValueText(s, at, env);
    MemberReads(s.key, ValueText(s, at, env), v, rest, member + rest);
    var later := FieldsFrom(next, n - 1, true, env, false);
    Behind(member, later, FieldsFrom(next, n - 1, true, env, true), tail);
    assert FieldsFrom(wire, n, true, env, true) == [] + (member + later);
    assert later + tail == rest;
    ms := [Member(s.key, v)] + others;
    assert ms[1..] == others;
    if others == [] { assert ms == [Member(s.key, v)]; }
  }

  /** What stands behind a member is the end or a comma and the other members. */
  lemma Behind(member: seq<byte>, later: seq<byte>, others: seq<byte>, tail: seq<byte>)
    ensures ([] + (member + later)) + tail == member + (later + tail)
    ensures later == [] ==> later + tail == tail
    ensures later == [COMMA] + others ==> later + tail == [COMMA] + (others + tail)
  {
  }

  lemma {:induction false} ListedArePrintable(ms: seq<Member>, wire: seq<byte>, n: nat, env: Env)
    requires Lists(ms, wire, n, env) && AllNumerals(ms)
    ensures AllPrintable(wire, n, env)
    decreases n
  {
    hide SpellsInt, IsNumeral, Fetch;
    if n > 0 && FirstSpan(wire).Some? {
      assert ms[0] in ms && forall m | m in ms[1..] :: m in ms;
      ListedArePrintable(ms[1..], wire[SpanLen(FirstSpan(wire).value)..], n - 1, env);
    }
  }

  lemma FieldListShape(r: Record, env: Env, more: seq<byte>)
    requires r.fieldCount > 0 && r.wire.Some?
    ensures var list := FormatLine.FieldList(r, true, env);
            && |list| >= 10 && Spells(list[..10], ",\"fields\":")
            && list[10..] + more
               == [0x7B] + (FieldsFrom(r.wire.value, r.fieldCount, true, env, true) + ([0x7D] + more))
  {
    hide FieldsFrom;
    var fields := FieldsFrom(r.wire.value, r.fieldCount, true, env, true);
    var list := FormatLine.FieldList(r, true, env);
    assert list[..10] == FIELDS_OPEN[..10];
    assert list[10..] == FIELDS_OPEN[10..] + fields + [0x7D];
  }

  /** The json field list is a comma, the name "fields" and an object, whatever follows. The
      object's members are the entries of the region in order, with their keys and values,
      if and only if every entry has a known type and every double prints as a number. */
  lemma JsonListReadsBack(r: Record, env: Env, more: seq<byte>)
    requires r.fieldCount > 0 && r.wire.Some?
    ensures var list := FormatLine.FieldList(r, true, env);
            && |list| >= 10 && Spells(list[..10], ",\"fields\":")
            && var read := ReadObject(list[10..] + more);
               (read.Some? && read.value.1 == more && Lists(read.value.0, r.wire.value, r.fieldCount, env))
               <==> AllPrintable(r.wire.value, r.fieldCount, env)
  {
    hide FieldsFrom, Lists, AllPrintable, FormatLine.FieldList, Spells, IsNumeral, ReadMembers;
    FieldListShape(r, env, more);
    var wire, n := r.wire.value, r.fieldCount;
    var fields := FieldsFrom(wire, n, true, env, true);
    var inside := fields + ([0x7D] + more);
    var s := FormatLine.FieldList(r, true, env)[10..] + more;
    assert s == [0x7B] + inside && s[1..] == inside;
    if FirstSpan(wire).None? {
      NoEntries(wire, n, env);
      assert s[2..] == more;
    } else {
      StartsWithQuote(wire, n, env);
      assert s[1] == QUOTE;
      if AllPrintable(wire, n, env) {
        var ms := MembersRead(wire, n, env, more);
      }
      if ReadObject(s).Some? && Lists(ReadObject(s).value.0, wire, n, env) {
        MembersAreJson(inside);
        ListedArePrintable(ReadObject(s).value.0, wire, n, env);
      }
    }
  }

  lemma NoEntries(wire: seq<byte>, n: nat, env: Env)
    requires FirstSpan(wire).None?
    ensures FieldsFrom(wire, n, true, env, true) == [] && AllPrintable(wire, n, env) && Lists([], wire, n, env)
  {
  }

  lemma StartsWithQuote(wire: seq<byte>, n: nat, env: Env)
    requires n > 0 && FirstSpan(wire).Some?
    ensures var f := FieldsFrom(wire, n, true, env, true); f != [] && f[0] == QUOTE
  {
    hide FieldsFrom, FirstSpan, Escaped;
    OneJsonField(wire, n, env, true);
  }

  // ---------------------------------------------------------------- text

  /** A word of the text form. */
  datatype Pair = Pair(key: seq<byte>, value: seq<byte>)

  /** How many bytes stand in front of the first `c`. */
  function Upto(s: seq<byte>, c: byte): (n: nat)
    ensures n <= |s|
  {
    if s == [] || s[0] == c then 0 else 1 + Upto(s[1..], c)
  }

  lemma {:induction false} UptoIsFirst(s: seq<byte>, c: byte)
    ensures c !in s[..Upto(s, c)]
  {
    if s != [] && s[0] != c {
      UptoIsFirst(s[1..], c);
      assert s[..Upto(s, c)] == [s[0]] + s[1..][..Upto(s[1..], c)];
    }
  }

  /** Words separated by a space, each with a '=' that ends its key. */
  function ReadPairs(s: seq<byte>): Option<seq<Pair>>
    decreases |s|
  {
    var n := Upto(s, ' ' as int);
    var e := Upto(s[..n], '=' as int);
    if e == n then None
    else
      var first := Pair(s[..e], s[e + 1..n]);
      if n == |s| then Some([first])
      else
        match ReadPairs(s[n + 1..])
        case None => None
        case Some(more) => Some([first] + more)
  }

  function ReadText(s: seq<byte>): Option<seq<Pair>> { if s == [] then Some([]) else ReadPairs(s) }

  function Shown(s: seq<byte>, env: Env): seq<byte> { if env.escapeInjection then Visibles(s) else s }

  /** `p` is the entry `s`, whose value begins at the front of `rest`. */
  predicate Says(p: Pair, s: Span, rest: seq<byte>, env: Env) {
    && p.key == Shown(s.key, env)
    && if s.tag == 0 then SpellsInt(p.value, Signed(Fetch(rest, 8, env)))
       else if s.tag == 1 then SpellsInt(p.value, Fetch(rest, 8, env))
       else if s.tag == 2 then p.value == env.float(Fetch(rest, 8, env))
       else if s.tag == 3 then Spells(p.value, if Fetch(rest, 4, env) != 0 then "true" else "false")
       else p.value == if s.tag == 4 then Shown(s.val, env) else []
  }

  predicate Tells(ps: seq<Pair>, wire: seq<byte>, n: nat, env: Env)
    decreases n
  {
    if n == 0 || FirstSpan(wire).None? then ps == []
    else
      var s := FirstSpan(wire).value;
      && ps != [] && Says(ps[0], s, wire[6 + |s.key|..], env)
      && Tells(ps[1..], wire[SpanLen(s)..], n - 1, env)
  }

  /** No space in key and value, and no '=' in the key. */
  predicate Separable(s: Span, rest: seq<byte>, env: Env) {
    && ' ' as int !in s.key && '=' as int !in s.key
    && (s.tag == 2 ==> ' ' as int !in env.float(Fetch(rest, 8, env)))
    && (s.tag == 4 ==> ' ' as int !in s.val)
  }

  predicate AllSeparable(wire: seq<byte>, n: nat, env: Env)
    decreases n
  {
    n == 0 || FirstSpan(wire).None?
    || (var s := FirstSpan(wire).value;
        Separable(s, wire[6 + |s.key|..], env) && AllSeparable(wire[SpanLen(s)..], n - 1, env))
  }

  lemma VisibleKeeps(b: byte, c: byte)
    requires c == ' ' as int || c == '=' as int
    ensures c in Visible(b) <==> b == c
  {
    assert b != c ==> c !in Visible(b);
  }

  lemma {:induction false} VisiblesKeep(s: seq<byte>, c: byte)
    requires c == ' ' as int || c == '=' as int
    ensures c in Visibles(s) <==> c in s
  {
    if s != [] {
      hide Visible;
      VisibleKeeps(s[0], c);
      VisiblesKeep(s[1..], c);
      assert s == [s[0]] + s[1..];
    }
  }

  lemma ShownKeeps(s: seq<byte>, env: Env, c: byte)
    requires c == ' ' as int || c == '=' as int
    ensures c in Shown(s, env) <==> c in s
  {
    VisiblesKeep(s, c);
  }

  lemma {:induction false} UptoIs(a: seq<byte>, b: seq<byte>, c: byte)
    requires c !in a && (b == [] || b[0] == c)
    ensures Upto(a + b, c) == |a|
  {
    if a == [] {
      assert a + b == b;
    } else {
      assert (a + b)[1..] == a[1..] + b;
      UptoIs(a[1..], b, c);
    }
  }

  lemma FirstPair(s: seq<byte>, n: nat, e: nat)
    requires n == Upto(s, ' ' as int) && e == Upto(s[..n], '=' as int) && e < n
    ensures ReadPairs(s)
            == if n == |s| then Some([Pair(s[..e], s[e + 1..n])])
               else match ReadPairs(s[n + 1..]) case None => None
                    case Some(more) => Some([Pair(s[..e], s[e + 1..n])] + more)
  {
    hide Upto;
  }

  /** One word in front of others, or of the end. */
  lemma PairReads(key: seq<byte>, val: seq<byte>, rest: seq<byte>)
    requires ' ' as int !in key && '=' as int !in key && ' ' as int !in val
    requires rest == [] || rest[0] == ' ' as int
    ensures ReadPairs((key + [0x3D] + val) + rest)
            == if rest == [] then Some([Pair(key, val)])
               else match ReadPairs(rest[1..]) case None => None case Some(more) => Some([Pair(key, val)] + more)
  {
    hide Upto, ReadPairs;
    var word := key + [0x3D] + val;
    WordParts(key, val, rest);
    UptoIs(word, rest, ' ' as int);
    UptoIs(key, [0x3D] + val, '=' as int);
    FirstPair(word + rest, |word|, |key|);
  }

  lemma WordParts(key: seq<byte>, val: seq<byte>, rest: seq<byte>)
    ensures var word := key + [0x3D] + val; var s := word + rest;
            && word == key + ([0x3D] + val) && s[..|word|] == word
            && s[..|key|] == key && s[|key| + 1..|word|] == val
            && |s| == |word| + |rest| && (rest != [] ==> s[|word| + 1..] == rest[1..])
  {
  }

  lemma NumbersHaveNoSpace(t: seq<byte>, v: int)
    requires SpellsInt(t, v)
    ensures ' ' as int !in t
  {
    LeadIsDigits(if t[0] == '-' as int then t[1..] else t);
  }

  lemma ValueSays(s: Span, at: seq<byte>, env: Env) returns (p: Pair)
    requires Separable(s, at, env)
    ensures Says(p, s, at, env)
    ensures FieldText(s, at, false, env, true) == p.key + [0x3D] + p.value
    ensures FieldText(s, at, false, env, false) == [0x20] + (p.key + [0x3D] + p.value)
    ensures ' ' as int !in p.key && '=' as int !in p.key && ' ' as int !in p.value
  {
    hide Fetch, Digits, SignedText, SpellsInt, Visibles, Escaped;
    FetchFits(at, env);
    ShownKeeps(s.key, env, ' ' as int);
    ShownKeeps(s.key, env, '=' as int);
    ShownKeeps(s.val, env, ' ' as int);
    p := Pair(Shown(s.key, env), if s.tag == 4 then Shown(s.val, env) else ScalarText(s.tag, at, env));
    var bits := Fetch(at, 8, env);
    NumbersSpell(bits);
    NumbersHaveNoSpace(Digits(bits, 10), bits);
    NumbersHaveNoSpace(SignedText(bits), Signed(bits));
  }

  lemma TextFields(wire: seq<byte>, n: nat, env: Env, first: bool)
    ensures FieldsFrom(wire, n, false, env, first)
            == if n == 0 || FirstSpan(wire).None? then []
               else var s := FirstSpan(wire).value;
                    FieldText(s, wire[6 + |s.key|..], false, env, first)
                    + FieldsFrom(wire[SpanLen(s)..], n - 1, false, env, false)
  {
    if n > 0 && FirstSpan(wire).Some? { FirstSpanIsThere(wire); }
  }

  lemma {:induction false} PairsRead(wire: seq<byte>, n: nat, env: Env) returns (ps: seq<Pair>)
    requires n > 0 && FirstSpan(wire).Some? && AllSeparable(wire, n, env)
    ensures Tells(ps, wire, n, env)
    ensures ReadPairs(FieldsFrom(wire, n, false, env, true)) == Some(ps)
    ensures FieldsFrom(wire, n, false, env, false) == [0x20] + FieldsFrom(wire, n, false, env, true)
    decreases n
  {
    hide FieldsFrom, FieldText, ReadPairs, FirstSpan, Says, Separable;
    var s := FirstSpan(wire).value;
    FirstSpanIsThere(wire);
    var at, next := wire[6 + |s.key|..], wire[SpanLen(s)..];
    TextFields(wire, n, env, true);
    TextFields(wire, n, env, false);
    TextFields(next, n - 1, env, false);
    var p := ValueSays(s, at, env);
    var rest := FieldsFrom(next, n - 1, false, env, false);
    var others: seq<Pair> := [];
    if n > 1 && FirstSpan(next).Some? {
      others := PairsRead(next, n - 1, env);
      assert rest[1..] == FieldsFrom(next, n - 1, false, env, true);
    }
    PairReads(p.key, p.value, rest);
    ps := [p] + others;
    assert ps[1..] == others;
    if others == [] { assert ps == [p]; }
  }

  predicate Unspaced(p: Pair) { ' ' as int !in p.key && '=' as int !in p.key && ' ' as int !in p.value }

  lemma {:induction false} PairsAreUnspaced(s: seq<byte>)
    ensures ReadPairs(s).Some? ==> forall p | p in ReadPairs(s).value :: Unspaced(p)
    decreases |s|
  {
    hide Upto;
    var n := Upto(s, ' ' as int);
    var e := Upto(s[..n], '=' as int);
    if e < n {
      WordIsUnspaced(s, n, e);
      if n < |s| { PairsAreUnspaced(s[n + 1..]); }
    }
  }

  lemma WordIsUnspaced(s: seq<byte>, n: nat, e: nat)
    requires n == Upto(s, ' ' as int) && e == Upto(s[..n], '=' as int) && e < n
    ensures Unspaced(Pair(s[..e], s[e + 1..n]))
  {
    hide Upto;
    UptoIsFirst(s, ' ' as int);
    UptoIsFirst(s[..n], '=' as int);
    assert s[..n][..e] == s[..e];
    forall c | c in s[..e] || c in s[e + 1..n] ensures c in s[..n] {}
  }

  lemma {:induction false} ToldAreSeparable(ps: seq<Pair>, wire: seq<byte>, n: nat, env: Env)
    requires Tells(ps, wire, n, env) && forall p | p in ps :: Unspaced(p)
    ensures AllSeparable(wire, n, env)
    decreases n
  {
    hide SpellsInt, Fetch, Shown, Spells;
    if n > 0 && FirstSpan(wire).Some? {
      var s := FirstSpan(wire).value;
      assert ps[0] in ps && forall p | p in ps[1..] :: p in ps;
      ShownKeeps(s.key, env, ' ' as int);
      ShownKeeps(s.key, env, '=' as int);
      ShownKeeps(s.val, env, ' ' as int);
      ToldAreSeparable(ps[1..], wire[SpanLen(s)..], n - 1, env);
    }
  }

  /** The text form reads back as the entries of the region in order, word by word, if and
      only if no key or value has a space in it and no key a '='. */
  lemma TextListReadsBack(r: Record, env: Env)
    requires r.fieldCount > 0 && r.wire.Some?
    ensures var read := ReadText(FormatLine.FieldList(r, false, env));
            (read.Some? && Tells(read.value, r.wire.value, r.fieldCount, env))
            <==> AllSeparable(r.wire.value, r.fieldCount, env)
  {
    hide Says, Separable, FirstSpan, FieldText;
    var wire, n := r.wire.value, r.fieldCount;
    var text := FieldsFrom(wire, n, false, env, true);
    assert FormatLine.FieldList(r, false, env) == text;
    TextFields(wire, n, env, true);
    if FirstSpan(wire).Some? {
      hide Tells, AllSeparable, FieldsFrom, ReadPairs;
      if AllSeparable(wire, n, env) {
        var ps := PairsRead(wire, n, env);
      }
      PairsAreUnspaced(text);
      if ReadText(text).Some? && Tells(ReadText(text).value, wire, n, env) {
        ToldAreSeparable(ReadText(text).value, wire, n, env);
      }
    }
  }

  // ---------------------------------------------------------------- from the caller's fields

  /** The member carries the caller's field. A false boolean is subject to what lies behind
      its byte: see BooleanPrintsItsValue. */
  predicate Carries(m: Member, f: Field, env: Env) {
    m.key == f.key
    && match f.value
       case I64(bits) => m.value.Numeral? && SpellsInt(m.value.text, Signed(bits))
       case U64(bits) => m.value.Numeral? && SpellsInt(m.value.text, bits)
       case F64(bits) => m.value == Numeral(env.float(bits))
       case Bool(bits) => m.value.Truth? && (bits != 0 ==> m.value.b)
       case Str(s) => m.value == Chars(s)
       case Other(_, _) => false
  }

  /** A field the wire format can hold; a double must print as a number. */
  predicate Storable(f: Field, env: Env) {
    && ValueOk(f.value) && |f.key| < 0x1_0000
    && match f.value
       case F64(bits) => IsNumeral(env.float(bits))
       case Str(s) => |s| < 0x1_0000
       case Other(_, _) => false
       case _ => true
  }

  predicate AllCarried(ms: seq<Member>, fs: seq<Field>, env: Env) {
    |ms| == |fs| && forall i | 0 <= i < |fs| :: Carries(ms[i], fs[i], env)
  }

  lemma {:induction false} LittleEndianStarts(s: seq<byte>)
    requires s != [] && s[0] != 0
    ensures FromLE(s) != 0
  {
  }

  /** An entry of a stored field, with anything behind it. */
  lemma StoredField(f: Field, more: seq<byte>, env: Env)
    requires Storable(f, env)
    ensures var s := SpanOf(f); var wire := SpanBytes(s) + more;
            && s.key == f.key && FirstSpan(wire) == Some(s) && SpanLen(s) <= |wire| && wire[SpanLen(s)..] == more
            && Printable(s, wire[6 + |f.key|..], env)
            && forall v :: Means(v, s, wire[6 + |f.key|..], env) ==> Carries(Member(f.key, v), f, env)
  {
    hide IsNumeral, SpellsInt, FirstSpan, LE, FromLE;
    var s := SpanOf(f);
    var wire := SpanBytes(s) + more;
    ValueReadsBack(f.value);
    FirstSpanReadsBack(s, more, wire);
    var at := wire[6 + |f.key|..];
    assert at == s.val + more;
    StoredValue(f.value, more, env);
  }

  lemma StoredValue(v: Value, more: seq<byte>, env: Env)
    requires ValueOk(v)
    ensures var at := ValBytes(v) + more;
            && (v.I64? || v.U64? || v.F64? ==> Fetch(at, 8, env) == v.bits)
            && (v.Bool? && v.bits != 0 ==> Fetch(at, 4, env) != 0)
  {
    hide LE, FromLE;
    Widths();
    var bs := ValBytes(v);
    if v.Bool? {
      LERoundTrip(v.bits, 1);
      FirstByte(v.bits);
      FetchReads(bs, more, env, 1);
      FetchLength(bs + more, 4, env);
      FetchStarts(bs + more, env);
      if v.bits != 0 { LittleEndianStarts(FetchBytes(bs + more, 4, env)); }
    } else if !v.Str? && !v.Other? {
      LERoundTrip(v.bits, 8);
      FetchReads(bs, more, env, 8);
      assert bs[..8] == bs;
    }
  }

  lemma FirstByte(b: nat)
    requires b < 256
    ensures LE(b, 1) == [b]
  {
    assert LE(b, 1) == [b] + [];
  }

  lemma FetchStarts(rest: seq<byte>, env: Env)
    requires rest != []
    ensures |FetchBytes(rest, 4, env)| == 4 && FetchBytes(rest, 4, env)[0] == rest[0]
  {
    assert FetchBytes(rest, 1, env) == [rest[0]];
    assert FetchBytes(rest, 2, env)[0] == rest[0];
    assert FetchBytes(rest, 3, env)[0] == rest[0];
  }

  lemma {:induction false} StoredFields(fs: seq<Field>, pad: seq<byte>, env: Env)
    requires forall f | f in fs :: Storable(f, env)
    ensures var wire := Region(SpansOf(fs)) + pad;
            AllPrintable(wire, |fs|, env)
            && forall ms: seq<Member> :: Lists(ms, wire, |fs|, env) ==> AllCarried(ms, fs, env)
  {
    hide SpanBytes, Storable, Printable, Means, Carries, SpanOf, FirstSpan;
    if fs != [] {
      var f, others := fs[0], fs[1..];
      assert f in fs;
      StoredFields(others, pad, env);
      var more := Region(SpansOf(others)) + pad;
      OneMore(f, others);
      assert fs == [f] + others;
      var wire := Region(SpansOf(fs)) + pad;
      assert wire == SpanBytes(SpanOf(f)) + more;
      StoredField(f, more, env);
      forall ms: seq<Member> | Lists(ms, wire, |fs|, env) ensures AllCarried(ms, fs, env) {
        assert Lists(ms[1..], more, |others|, env);
        assert ms[0] == Member(f.key, ms[0].value);
        forall i | 0 < i < |fs| ensures Carries(ms[i], fs[i], env) {
          assert ms[1..][i - 1] == ms[i] && others[i - 1] == fs[i];
        }
      }
    }
  }

  /** The members of the object are the fields the region was written from, in order. */
  lemma FieldsComeBack(r: Record, fs: seq<Field>, pad: seq<byte>, env: Env, more: seq<byte>)
    requires fs != [] && forall f | f in fs :: Storable(f, env)
    requires r.fieldCount == |fs| && r.wire == Some(Region(SpansOf(fs)) + pad)
    ensures var read := ReadObject(FormatLine.FieldList(r, true, env)[10..] + more);
            read.Some? && read.value.1 == more && AllCarried(read.value.0, fs, env)
  {
    hide Lists, AllPrintable, AllCarried, ReadObject, Region, SpansOf, Storable, FormatLine.FieldList;
    StoredFields(fs, pad, env);
    JsonListReadsBack(r, env, more);
  }
}
