/** The built-in json template, end to end: when its line is a JSON object that describes the
    record. */
module JsonLine {
  import opened Bytes
  import opened Options
  import opened JsonText
  import opened JsonObject
  import opened FormatTemplate
  import opened FormatLine
  import opened FormatNames
  import opened FormatFields
  import opened FormatValues

  function Ascii(s: string): (t: seq<byte>)
    ensures |t| == |s| && forall i | 0 <= i < |s| :: t[i] == s[i] as int % 256
  {
    seq(|s|, i requires 0 <= i < |s| => s[i] as int % 256)
  }

  /** "key":"%name" */
  function StrPart(key: string, name: string): seq<byte> {
    ([0x22] + Ascii(key) + [0x22, 0x3A, 0x22]) + ([0x25] + Ascii(name) + [0x22])
  }

  /** "key":%name */
  function NumPart(key: string, name: string): seq<byte> {
    ([0x22] + Ascii(key) + [0x22, 0x3A]) + ([0x25] + Ascii(name))
  }

  // ---------------------------------------------------------------- reading and rendering a template's front

  lemma LiteralFront(lit: seq<byte>, t: seq<byte>)
    requires PERCENT !in lit
    ensures Read(lit + t, 0) == Before(ByteSeq(lit), t)
  {
    LiteralReads(lit, t, 0);
    ReadLocal(lit, t, 0);
    assert lit[0..] == lit;
  }

  lemma ValueFront(name: string, k: Kind, t: seq<byte>)
    requires Named(name, k)
    ensures Read([0x25] + Ascii(name) + t, 0) == Before([Value(k, NO_MOD)], t)
  {
    var m, tail := Spec(false, [], None), Ascii(name) + t;
    assert SpecBytes(m) == [] && AllDigits([]);
    assert ['%' as int] + [] + tail == [0x25] + Ascii(name) + t;
    assert Begins(tail, name) by { NamesAreAscii(name, k); }
    assert tail[|name|..] == t;
    NoDigits(10);
    hide Read, SpecBytes, Begins, Named;
    LongNameReads(m, name, k, tail);
  }

  lemma NamesAreAscii(name: string, k: Kind)
    requires Named(name, k)
    ensures forall i | 0 <= i < |name| :: name[i] as int < 256
  {
  }

  lemma {:induction false} InsertLater(a: seq<Piece>, b: seq<Piece>)
    requires Byte(BRACE) in b
    ensures InsertFields(a + b) == a + InsertFields(b) && Byte(BRACE) in InsertFields(b)
  {
    var n := |b| - 1;
    var ps := a + b;
    assert ps[|ps| - 1] == b[n] && ps[..|ps| - 1] == a + b[..n];
    assert b == b[..n] + [b[n]];
    if b[n] != Byte(BRACE) {
      InsertLater(a, b[..n]);
      assert (a + InsertFields(b[..n])) + [b[n]] == a + (InsertFields(b[..n]) + [b[n]]);
    }
  }

  lemma LineOfValue(k: Kind, r: Record, env: Env)
    ensures LineOf([Value(k, NO_MOD)], r, true, env) == Content(k, r, true, env)
  {
    hide Content;
    assert [Value(k, NO_MOD)][1..] == [];
    assert Content(k, r, true, env) + [] == Content(k, r, true, env);
  }

  /** The line of the template `t` with the field list spliced in, if it has a brace. */
  ghost predicate Gives(t: seq<byte>, r: Record, env: Env, line: seq<byte>) {
    var ps := Read(t, 0);
    ps.Some? && Byte(BRACE) in ps.value && LineOf(InsertFields(ps.value), r, true, env) == line
  }

  lemma PiecesGive(front: seq<Piece>, text: seq<byte>, t: seq<byte>, t': seq<byte>, r: Record, env: Env,
                   line: seq<byte>)
    requires Gives(t, r, env, line) && Read(t', 0) == Before(front, t) && LineOf(front, r, true, env) == text
    ensures Gives(t', r, env, text + line)
  {
    hide Read, LineOf, InsertFields;
    var ps := Read(t, 0).value;
    InsertLater(front, ps);
    LineConcat(front, InsertFields(ps), r, true, env);
  }

  lemma LiteralGives(lit: seq<byte>, t: seq<byte>, r: Record, env: Env, line: seq<byte>)
    requires PERCENT !in lit && Gives(t, r, env, line)
    ensures Gives(lit + t, r, env, lit + line)
  {
    hide Read, Gives, LineOf;
    LiteralFront(lit, t);
    LineOfBytes(lit, r, true, env);
    PiecesGive(ByteSeq(lit), lit, t, lit + t, r, env, line);
  }

  lemma ValueGives(name: string, k: Kind, t: seq<byte>, r: Record, env: Env, line: seq<byte>)
    requires Named(name, k) && Gives(t, r, env, line)
    ensures Gives([0x25] + Ascii(name) + t, r, env, Content(k, r, true, env) + line)
  {
    hide Read, Gives, LineOf, Content, Named;
    ValueFront(name, k, t);
    LineOfValue(k, r, env);
    PiecesGive([Value(k, NO_MOD)], Content(k, r, true, env), t, [0x25] + Ascii(name) + t, r, env, line);
  }

  // ---------------------------------------------------------------- member by member

  /** Bytes that a JSON string holds as they are. */
  predicate Unescaped(s: seq<byte>) { forall c | c in s :: c >= 0x20 && c != '"' as int && c != '\\' as int }

  lemma {:induction false} UnescapedIsSame(s: seq<byte>)
    requires Unescaped(s)
    ensures Escaped(s) == s
  {
    if s != [] {
      assert s[0] in s && forall c | c in s[1..] :: c in s;
      UnescapedIsSame(s[1..]);
      assert Escape(s[0]) == [s[0]] && [s[0]] + s[1..] == s;
    }
  }

  predicate KeyOk(key: string) { Unescaped(Ascii(key)) && PERCENT !in Ascii(key) }

  /** The members of an object read from somewhere inside it, and what follows it. */
  type Members = Option<(seq<Member>, seq<byte>)>

  function Prefixed(m: Member, ms: Members): Members {
    match ms case None => None case Some((more, last)) => Some(([m] + more, last))
  }

  /** The template `t` renders to `line`, and that reads as the rest of an object. */
  ghost predicate Yields(t: seq<byte>, r: Record, env: Env, line: seq<byte>, ms: Members) {
    Gives(t, r, env, line) && ReadMembers(line) == ms
  }

  lemma StrParts(key: seq<byte>, name: seq<byte>, x: seq<byte>, t: seq<byte>, line: seq<byte>)
    ensures ([0x22] + key + [0x22, 0x3A, 0x22]) + ([0x25] + name + ([0x22, 0x2C] + t))
            == (([0x22] + key + [0x22, 0x3A, 0x22]) + ([0x25] + name + [0x22])) + ([0x2C] + t)
    ensures ([0x22] + key + [0x22, 0x3A, 0x22]) + (x + ([0x22, 0x2C] + line))
            == ([QUOTE] + key + [QUOTE, 0x3A] + ([QUOTE] + x + [QUOTE])) + ([0x2C] + line)
  {
  }

  lemma NumParts(key: seq<byte>, name: seq<byte>, x: seq<byte>, t: seq<byte>, line: seq<byte>)
    ensures ([0x22] + key + [0x22, 0x3A]) + ([0x25] + name + ([0x2C] + t))
            == (([0x22] + key + [0x22, 0x3A]) + ([0x25] + name)) + ([0x2C] + t)
    ensures ([0x22] + key + [0x22, 0x3A]) + (x + ([0x2C] + line))
            == ([QUOTE] + key + [QUOTE, 0x3A] + x) + ([0x2C] + line)
  {
  }

  /** One member in front of others whose value reads as `v`. */
  lemma MemberYields(key: string, val: seq<byte>, v: Json, t: seq<byte>, r: Record, env: Env, line: seq<byte>,
                     ms: Members, t': seq<byte>, line': seq<byte>)
    requires Yields(t, r, env, line, ms) && KeyOk(key) && Gives(t', r, env, line')
    requires line' == ([QUOTE] + Ascii(key) + [QUOTE, 0x3A] + val) + ([0x2C] + line)
    requires JsonObject.ReadValue(val + ([0x2C] + line)) == Some((v, [0x2C] + line))
    ensures Yields(t', r, env, line', Prefixed(Member(Ascii(key), v), ms))
  {
    UnescapedIsSame(Ascii(key));
    assert ([0x2C] + line)[1..] == line;
    hide Gives, ReadMembers, JsonObject.ReadValue, Escaped, Unescaped;
    MemberReads(Ascii(key), val, v, [0x2C] + line, line');
  }

  lemma StrGives(key: string, name: string, k: Kind, t: seq<byte>, r: Record, env: Env, line: seq<byte>)
    returns (line': seq<byte>)
    requires Named(name, k) && KeyOk(key) && Gives(t, r, env, line)
    ensures Gives(StrPart(key, name) + ([0x2C] + t), r, env, line')
    ensures var val := [QUOTE] + Content(k, r, true, env) + [QUOTE];
            line' == ([QUOTE] + Ascii(key) + [QUOTE, 0x3A] + val) + ([0x2C] + line)
  {
    hide Gives, Unescaped, Content, Named;
    var c, open := Content(k, r, true, env), [0x22] + Ascii(key) + [0x22, 0x3A, 0x22];
    LiteralGives([0x22, 0x2C], t, r, env, line);
    ValueGives(name, k, [0x22, 0x2C] + t, r, env, [0x22, 0x2C] + line);
    LiteralGives(open, [0x25] + Ascii(name) + ([0x22, 0x2C] + t), r, env, c + ([0x22, 0x2C] + line));
    StrParts(Ascii(key), Ascii(name), c, t, line);
    line' := open + (c + ([0x22, 0x2C] + line));
  }

  /** A string member. */
  lemma StrYields(key: string, name: string, k: Kind, x: seq<byte>, t: seq<byte>, r: Record, env: Env, line: seq<byte>,
                  ms: Members) returns (line': seq<byte>)
    requires Named(name, k) && KeyOk(key) && Content(k, r, true, env) == Escaped(x) && Yields(t, r, env, line, ms)
    ensures Yields(StrPart(key, name) + ([0x2C] + t), r, env, line', Prefixed(Member(Ascii(key), Chars(x)), ms))
    ensures line' != [] && line'[0] == QUOTE
  {
    hide Gives, ReadMembers, JsonObject.ReadValue, Escaped, Unescaped, Content, Named;
    line' := StrGives(key, name, k, t, r, env, line);
    var val, rest := [QUOTE] + Escaped(x) + [QUOTE], [0x2C] + line;
    CharsRead(x, rest, val + rest);
    MemberYields(key, val, Chars(x), t, r, env, line, ms, StrPart(key, name) + ([0x2C] + t), line');
  }

  /** A number member; without a number there is no JSON. */
  lemma NumYields(key: string, name: string, k: Kind, t: seq<byte>, r: Record, env: Env, line: seq<byte>,
                  ms: Members) returns (line': seq<byte>)
    requires Named(name, k) && KeyOk(key) && Yields(t, r, env, line, ms)
    requires var c := Content(k, r, true, env); c == [] || exists v :: SpellsInt(c, v)
    ensures var c := Content(k, r, true, env);
            Yields(NumPart(key, name) + ([0x2C] + t), r, env, line',
                   if c == [] then None else Prefixed(Member(Ascii(key), Numeral(c)), ms))
  {
    hide Gives, ReadMembers, JsonObject.ReadValue, Escaped, Unescaped, Content, Named, SpellsInt, IsNumeral;
    var c, open := Content(k, r, true, env), [0x22] + Ascii(key) + [0x22, 0x3A];
    LiteralGives([0x2C], t, r, env, line);
    ValueGives(name, k, [0x2C] + t, r, env, [0x2C] + line);
    LiteralGives(open, [0x25] + Ascii(name) + ([0x2C] + t), r, env, c + ([0x2C] + line));
    NumParts(Ascii(key), Ascii(name), c, t, line);
    line' := open + (c + ([0x2C] + line));
    var rest := [0x2C] + line;
    if c == [] {
      assert line' == [QUOTE] + Ascii(key) + [QUOTE, 0x3A] + rest;
      NothingReads(key, rest, line');
    } else {
      var v :| SpellsInt(c, v);
      IntIsNumeral(c, v);
      NumeralReads(c, rest);
      MemberYields(key, c, Numeral(c), t, r, env, line, ms, NumPart(key, name) + ([0x2C] + t), line');
    }
  }

  lemma NothingReads(key: string, rest: seq<byte>, s: seq<byte>)
    requires KeyOk(key) && rest != [] && Ends(rest[0]) && s == [QUOTE] + Ascii(key) + [QUOTE, 0x3A] + rest
    ensures ReadMembers(s).None?
  {
    UnescapedIsSame(Ascii(key));
    hide Escaped, ReadString;
    var behind := [0x3A] + rest;
    assert s[1..] == Escaped(Ascii(key)) + ([QUOTE] + behind);
    StringReads(Ascii(key), behind, s[1..]);
    assert behind[1..] == rest && rest[..0] == [] && TokenLen(rest) == 0;
    assert ReadToken([]).None?;
    assert JsonObject.ReadValue(rest).None?;
  }

  // ---------------------------------------------------------------- the end of the template

  const END: seq<byte> := [0x7D] + ([0x25] + Ascii("n") + [])

  lemma EndReads()
    ensures Read(END, 0) == Some([Byte(BRACE), Value(Newline, NO_MOD)])
  {
    ValueFront("n", Newline, []);
    LiteralFront([0x7D], [0x25] + Ascii("n") + []);
    assert Read([], 0) == Some([]);
    hide Read;
    assert ByteSeq([0x7D]) == [Byte(BRACE)] by { assert [0x7D][1..] == []; }
    var nl := Value(Newline, NO_MOD);
    assert [nl] + [] == [nl] && [Byte(BRACE)] + [nl] == [Byte(BRACE), nl];
  }

  lemma EndInserts()
    ensures var f, nl := Value(Kind.FieldList, NO_MOD), Value(Newline, NO_MOD);
            InsertFields([Byte(BRACE), nl]) == [f] + ([Byte(BRACE)] + [nl])
  {
    var f, nl := Value(Kind.FieldList, NO_MOD), Value(Newline, NO_MOD);
    InsertedAt([], [nl]);
    assert [] + [Byte(BRACE)] + [nl] == [Byte(BRACE), nl];
  }

  lemma EndGives(r: Record, env: Env)
    ensures Gives(END, r, env, FormatLine.FieldList(r, true, env) + ([0x7D] + NewlineBytes(env.crlf)))
  {
    EndReads();
    EndInserts();
    assert Content(Newline, r, true, env) == NewlineBytes(env.crlf);
    assert Content(Kind.FieldList, r, true, env) == FormatLine.FieldList(r, true, env);
    assert LineOf([Byte(BRACE)], r, true, env) == [0x7D] by { assert [Byte(BRACE)][1..] == []; }
    hide Read, FormatLine.FieldList, Content, LineOf, InsertFields;
    var nl, f := Value(Newline, NO_MOD), Value(Kind.FieldList, NO_MOD);
    LineOfValue(Kind.FieldList, r, env);
    LineOfValue(Newline, r, env);
    LineConcat([f], [Byte(BRACE)] + [nl], r, true, env);
    LineConcat([Byte(BRACE)], [nl], r, true, env);
  }

  predicate HasFields(r: Record) { r.fieldCount > 0 && r.wire.Some? }

  /** The object in the field list. */
  function FieldsPart(r: Record, env: Env): seq<byte>
    requires HasFields(r)
  {
    [0x22] + Ascii("fields") + [0x22, 0x3A] + FormatLine.FieldList(r, true, env)[10..]
  }

  lemma FieldListIs(r: Record, env: Env)
    requires HasFields(r)
    ensures FormatLine.FieldList(r, true, env) == [0x2C] + FieldsPart(r, env)
  {
    hide FormatLine.FieldList;
    JsonListReadsBack(r, env, []);
    var list := FormatLine.FieldList(r, true, env);
    var head := [0x2C] + [0x22] + Ascii("fields") + [0x22, 0x3A];
    assert list[..10] == head;
    assert list == list[..10] + list[10..];
    assert head + list[10..] == [0x2C] + FieldsPart(r, env);
  }

  lemma MsgParts(key: seq<byte>, name: seq<byte>, x: seq<byte>, f: seq<byte>, end: seq<byte>)
    ensures ([0x22] + key + [0x22, 0x3A, 0x22]) + ([0x25] + name + ([0x22] + end))
            == (([0x22] + key + [0x22, 0x3A, 0x22]) + ([0x25] + name + [0x22])) + end
    ensures ([0x22] + key + [0x22, 0x3A, 0x22]) + (x + ([0x22] + f))
            == ([QUOTE] + key + [QUOTE, 0x3A] + ([QUOTE] + x + [QUOTE])) + f
  {
  }

  /** What stands behind the message. */
  function Behind(r: Record, env: Env): seq<byte> {
    FormatLine.FieldList(r, true, env) + ([0x7D] + NewlineBytes(env.crlf))
  }

  lemma BehindIs(r: Record, env: Env)
    ensures var f, end := Behind(r, env), [0x7D] + NewlineBytes(env.crlf);
            && f != [] && f[0] == (if HasFields(r) then ',' else '}') as int
            && f[1..] == if HasFields(r) then FieldsPart(r, env) + end else NewlineBytes(env.crlf)
  {
    if HasFields(r) {
      FieldListIs(r, env);
      hide FormatLine.FieldList, FieldsPart;
      var part, end := FieldsPart(r, env), [0x7D] + NewlineBytes(env.crlf);
      assert ([0x2C] + part) + end == [0x2C] + (part + end);
    } else {
      assert Behind(r, env) == [] + ([0x7D] + NewlineBytes(env.crlf));
    }
  }

  lemma MsgFacts(r: Record, env: Env)
    ensures Gives(END, r, env, Behind(r, env)) && Content(Text, r, true, env) == Escaped(r.text) && Named("msg", Text)
    ensures PERCENT !in [0x22] + Ascii("msg") + [0x22, 0x3A, 0x22]
  {
    EndGives(r, env);
    assert Ascii("msg") == [0x6D, 0x73, 0x67];
  }

  lemma MsgGives(r: Record, env: Env) returns (line: seq<byte>)
    ensures Gives(StrPart("msg", "msg") + END, r, env, line)
    ensures line == ([QUOTE] + Ascii("msg") + [QUOTE, 0x3A] + ([QUOTE] + Escaped(r.text) + [QUOTE])) + Behind(r, env)
  {
    hide Gives, Escaped, Content, Behind, Named, Ascii;
    MsgFacts(r, env);
    var f, c := Behind(r, env), Escaped(r.text);
    var open := [0x22] + Ascii("msg") + [0x22, 0x3A, 0x22];
    LiteralGives([0x22], END, r, env, f);
    ValueGives("msg", Text, [0x22] + END, r, env, [0x22] + f);
    LiteralGives(open, [0x25] + Ascii("msg") + ([0x22] + END), r, env, c + ([0x22] + f));
    MsgParts(Ascii("msg"), Ascii("msg"), c, f, END);
    line := open + (c + ([0x22] + f));
  }

  /** The message and what follows it. */
  lemma MsgYields(r: Record, env: Env) returns (line: seq<byte>)
    ensures Gives(StrPart("msg", "msg") + END, r, env, line)
    ensures var m, end := Member(Ascii("msg"), Chars(r.text)), [0x7D] + NewlineBytes(env.crlf);
            ReadMembers(line) == if HasFields(r) then Prefixed(m, ReadMembers(FieldsPart(r, env) + end))
                                 else Some(([m], NewlineBytes(env.crlf)))
  {
    line := MsgGives(r, env);
    BehindIs(r, env);
    assert Escaped(Ascii("msg")) == Ascii("msg") by {
      assert Unescaped(Ascii("msg")) by { assert Ascii("msg") == [0x6D, 0x73, 0x67]; }
      UnescapedIsSame(Ascii("msg"));
    }
    hide Gives, ReadMembers, JsonObject.ReadValue, Escaped, FormatLine.FieldList, FieldsPart, Behind;
    var val, f := [QUOTE] + Escaped(r.text) + [QUOTE], Behind(r, env);
    CharsRead(r.text, f, val + f);
    MemberReads(Ascii("msg"), val, Chars(r.text), f, line);
  }

  /** With every field printable the object is the last member. */
  lemma FieldsYield(r: Record, env: Env) returns (fs: seq<Member>)
    requires HasFields(r) && AllPrintable(r.wire.value, r.fieldCount, env)
    ensures Lists(fs, r.wire.value, r.fieldCount, env)
    ensures ReadMembers(FieldsPart(r, env) + ([0x7D] + NewlineBytes(env.crlf)))
            == Some(([Member(Ascii("fields"), Object(fs))], NewlineBytes(env.crlf)))
  {
    hide FormatLine.FieldList, Lists, AllPrintable, ReadMembers, ReadObject, Escaped;
    var nl := NewlineBytes(env.crlf);
    var end := [0x7D] + nl;
    JsonListReadsBack(r, env, end);
    var val := FormatLine.FieldList(r, true, env)[10..];
    fs := ReadObject(val + end).value.0;
    ObjectReads(fs, end, val + end);
    assert Escaped(Ascii("fields")) == Ascii("fields") by {
      assert Unescaped(Ascii("fields")) by { assert Ascii("fields") == [0x66, 0x69, 0x65, 0x6C, 0x64, 0x73]; }
      UnescapedIsSame(Ascii("fields"));
    }
    assert FieldsPart(r, env) == [QUOTE] + Escaped(Ascii("fields")) + [QUOTE, 0x3A] + val;
    assert end[1..] == nl;
    MemberReads(Ascii("fields"), val, Object(fs), end, FieldsPart(r, env) + end);
  }

  /** Numbers inside nested objects are numbers, too. */
  lemma {:induction false} NestedAreJson(s: seq<byte>)
    ensures ReadMembers(s).Some? ==>
              forall m | m in ReadMembers(s).value.0 && m.value.Object? :: AllNumerals(m.value.members)
    decreases |s|
  {
    hide ReadString, JsonObject.ReadValue, AllNumerals;
    if s != [] && s[0] == '"' as int && ReadString(s[1..]).Some? {
      ReadStringAdvances(s[1..]);
      var (key, rest) := ReadString(s[1..]).value;
      if rest != [] && JsonObject.ReadValue(rest[1..]).Some? {
        NestedValue(rest[1..]);
        var (v, after) := JsonObject.ReadValue(rest[1..]).value;
        if after != [] { NestedAreJson(after[1..]); }
      }
    }
  }

  lemma NestedValue(s: seq<byte>)
    ensures var v := JsonObject.ReadValue(s); v.Some? && v.value.0.Object? ==> AllNumerals(v.value.0.members)
  {
    hide ReadMembers, ReadString, IsNumeral, Spells, TokenLen;
    if s != [] { MembersAreJson(s[1..]); }
  }

  // ---------------------------------------------------------------- the whole template

  function Then(part: seq<byte>, more: seq<byte>): seq<byte> { part + ([0x2C] + more) }

  /** The built-in json template: its eight members separated by commas, in braces, and %n. */
  function JsonTemplate(): seq<byte> {
    [0x7B] + Then(StrPart("time", "time"), Then(StrPart("level", "level"), Then(StrPart("category", "category"),
             Then(NumPart("pid", "pid"), Then(NumPart("tid", "tid"), Then(StrPart("file", "file"),
             Then(NumPart("line", "line"), StrPart("msg", "msg") + END)))))))
  }

  predicate TextMember(m: Member, key: string, text: seq<byte>) { Spells(m.key, key) && m.value == Chars(text) }

  predicate IntMember(m: Member, key: string, v: int) {
    Spells(m.key, key) && m.value.Numeral? && SpellsInt(m.value.text, v)
  }

  function TimeText(r: Record, env: Env): seq<byte> { if env.useUtc then r.utcTime else r.localTime }

  /** The first eight members tell the record without its fields. */
  predicate TellsRecord(ms: seq<Member>, r: Record, env: Env)
    requires |ms| >= 8
  {
    && TextMember(ms[0], "time", TimeText(r, env))
    && Spells(ms[1].key, "level") && ms[1].value.Chars? && ShowsLevel(ms[1].value.s, r.level)
    && TextMember(ms[2], "category", r.category)
    && IntMember(ms[3], "pid", env.pid) && IntMember(ms[4], "tid", r.tid)
    && TextMember(ms[5], "file", if r.file.Some? then r.file.value else [])
    && IntMember(ms[6], "line", if r.line > 0 then r.line else 0)
    && TextMember(ms[7], "msg", r.text)
  }

  /** And a ninth its fields, if it has any. */
  ghost predicate Describes(ms: seq<Member>, r: Record, env: Env) {
    && |ms| == (if HasFields(r) then 9 else 8) && TellsRecord(ms, r, env)
    && (HasFields(r) ==>
          Spells(ms[8].key, "fields") && ms[8].value.Object?
          && Lists(ms[8].value.members, r.wire.value, r.fieldCount, env))
  }

  lemma LowerIsOk(key: string)
    requires forall c | c in key :: 'a' <= c <= 'z'
    ensures KeyOk(key)
  {
    forall i | 0 <= i < |key| ensures 'a' as int <= Ascii(key)[i] <= 'z' as int { assert key[i] in key; }
  }

  lemma KeysOk()
    ensures KeyOk("time") && KeyOk("level") && KeyOk("category") && KeyOk("pid") && KeyOk("tid") && KeyOk("file")
    ensures KeyOk("line") && KeyOk("msg")
  {
    hide KeyOk;
    LowerIsOk("time");
    LowerIsOk("level");
    LowerIsOk("category");
    LowerIsOk("pid");
    LowerIsOk("tid");
    LowerIsOk("file");
    LowerIsOk("line");
    LowerIsOk("msg");
  }

  lemma LevelTagIsSame(level: int)
    ensures Escaped(LevelTag(level)) == LevelTag(level)
  {
    hide Escaped;
    UnescapedIsSame(LevelTag(level));
  }

  lemma Texts(r: Record, env: Env)
    ensures Content(Time, r, true, env) == TimeText(r, env)
    ensures Content(Level, r, true, env) == Escaped(LevelTag(r.level))
    ensures Content(Category, r, true, env) == Escaped(r.category)
  {
    hide Escaped, LevelTag;
    LevelTagIsSame(r.level);
  }

  lemma FileIs(r: Record, env: Env)
    ensures Content(File, r, true, env) == Escaped(FileText(r, env))
  {
    hide Escaped;
    NothingIsSame();
  }

  lemma NothingIsSame()
    ensures Escaped([]) == []
  {
  }

  lemma Numbers(r: Record, env: Env)
    ensures SpellsInt(Content(Pid, r, true, env), env.pid) && SpellsInt(Content(Tid, r, true, env), r.tid)
    ensures var c := Content(LineNumber, r, true, env);
            if env.sourceLoc then SpellsInt(c, if r.line > 0 then r.line else 0) else c == []
  {
    ContentShows(Pid, r, true, env);
    ContentShows(Tid, r, true, env);
    ContentShows(LineNumber, r, true, env);
  }

  lemma NotEmpty(t: seq<byte>, v: int)
    requires SpellsInt(t, v)
    ensures t != []
  {
  }

  /** From the process number on. */
  lemma TailYields(r: Record, env: Env) returns (line: seq<byte>, end: Members)
    ensures var a, b, c := Content(Pid, r, true, env), Content(Tid, r, true, env), Content(LineNumber, r, true, env);
            && a != [] && b != []
            && Yields(Then(NumPart("pid", "pid"), Then(NumPart("tid", "tid"), Then(StrPart("file", "file"),
                      Then(NumPart("line", "line"), StrPart("msg", "msg") + END)))), r, env, line,
                  Prefixed(Member(Ascii("pid"), Numeral(a)), Prefixed(Member(Ascii("tid"), Numeral(b)),
                  Prefixed(Member(Ascii("file"), Chars(FileText(r, env))),
                           if c == [] then None else Prefixed(Member(Ascii("line"), Numeral(c)), end)))))
    ensures var m, last := Member(Ascii("msg"), Chars(r.text)), [0x7D] + NewlineBytes(env.crlf);
            end == if HasFields(r) then Prefixed(m, ReadMembers(FieldsPart(r, env) + last))
                   else Some(([m], NewlineBytes(env.crlf)))
  {
    hide Gives, ReadMembers, Content, KeyOk, Named, SpellsInt, StrPart, NumPart, FieldsPart, Escaped, LevelTag, Ascii,
         Prefixed, Unescaped, TimeText, Yields, FileText;
    KeysOk();
    NamesOk();
    Numbers(r, env);
    FileIs(r, env);
    var a, b, c := Content(Pid, r, true, env), Content(Tid, r, true, env), Content(LineNumber, r, true, env);
    NotEmpty(a, env.pid);
    NotEmpty(b, r.tid);
    var t, ms;
    t, line, ms := EndYields(r, env);
    end := ms;
    line := NumYields("line", "line", LineNumber, t, r, env, line, ms);
    t := Then(NumPart("line", "line"), t);
    ms := if c == [] then None else Prefixed(Member(Ascii("line"), Numeral(c)), ms);
    line := StrYields("file", "file", File, FileText(r, env), t, r, env, line, ms);
    t, ms := Then(StrPart("file", "file"), t), Prefixed(Member(Ascii("file"), Chars(FileText(r, env))), ms);
    line := NumYields("tid", "tid", Tid, t, r, env, line, ms);
    t, ms := Then(NumPart("tid", "tid"), t), Prefixed(Member(Ascii("tid"), Numeral(b)), ms);
    line := NumYields("pid", "pid", Pid, t, r, env, line, ms);
  }

  lemma EndYields(r: Record, env: Env) returns (t: seq<byte>, line: seq<byte>, end: Members)
    ensures t == StrPart("msg", "msg") + END && Yields(t, r, env, line, end)
    ensures var m, last := Member(Ascii("msg"), Chars(r.text)), [0x7D] + NewlineBytes(env.crlf);
            end == if HasFields(r) then Prefixed(m, ReadMembers(FieldsPart(r, env) + last))
                   else Some(([m], NewlineBytes(env.crlf)))
  {
    hide Gives, ReadMembers, StrPart, FieldsPart, Ascii, Prefixed;
    line := MsgYields(r, env);
    t, end := StrPart("msg", "msg") + END, ReadMembers(line);
  }

  lemma NamesOk()
    ensures Named("time", Time) && Named("level", Level) && Named("category", Category) && Named("pid", Pid)
    ensures Named("tid", Tid) && Named("file", File) && Named("line", LineNumber)
  {
  }

  function FileText(r: Record, env: Env): seq<byte> { if env.sourceLoc && r.file.Some? then r.file.value else [] }

  /** From the level on. */
  lemma HeadYields(r: Record, env: Env) returns (t: seq<byte>, line: seq<byte>, end: Members)
    ensures JsonTemplate() == [0x7B] + Then(StrPart("time", "time"), t) && line != [] && line[0] == QUOTE
    ensures var a, b, c := Content(Pid, r, true, env), Content(Tid, r, true, env), Content(LineNumber, r, true, env);
            && a != [] && b != []
            && Yields(t, r, env, line,
                  Prefixed(Member(Ascii("level"), Chars(LevelTag(r.level))),
                  Prefixed(Member(Ascii("category"), Chars(r.category)),
                  Prefixed(Member(Ascii("pid"), Numeral(a)), Prefixed(Member(Ascii("tid"), Numeral(b)),
                  Prefixed(Member(Ascii("file"), Chars(FileText(r, env))),
                           if c == [] then None else Prefixed(Member(Ascii("line"), Numeral(c)), end)))))))
    ensures var m, last := Member(Ascii("msg"), Chars(r.text)), [0x7D] + NewlineBytes(env.crlf);
            end == if HasFields(r) then Prefixed(m, ReadMembers(FieldsPart(r, env) + last))
                   else Some(([m], NewlineBytes(env.crlf)))
  {
    hide Gives, ReadMembers, Content, KeyOk, Named, SpellsInt, StrPart, NumPart, FieldsPart, Escaped, LevelTag, Ascii,
         Prefixed, Unescaped, TimeText, FileText;
    KeysOk();
    NamesOk();
    Texts(r, env);
    line, end := TailYields(r, env);
    var ms := ReadMembers(line);
    t := Then(NumPart("pid", "pid"), Then(NumPart("tid", "tid"), Then(StrPart("file", "file"),
         Then(NumPart("line", "line"), StrPart("msg", "msg") + END))));
    line := StrYields("category", "category", Category, r.category, t, r, env, line, ms);
    t, ms := Then(StrPart("category", "category"), t), Prefixed(Member(Ascii("category"), Chars(r.category)), ms);
    line := StrYields("level", "level", Level, LevelTag(r.level), t, r, env, line, ms);
    t := Then(StrPart("level", "level"), t);
  }

  /** Nothing in the time needs escaping (it is shown as it is), source locations are captured,
      every field has a known type and every double prints as a number. */
  predicate Complete(r: Record, env: Env) {
    Unescaped(TimeText(r, env)) && env.sourceLoc && (HasFields(r) ==> AllPrintable(r.wire.value, r.fieldCount, env))
  }

  ghost predicate ReadsAs(line: seq<byte>, r: Record, env: Env) {
    var read := ReadObject(line);
    read.Some? && Spells(read.value.1, if env.crlf then "\r\n" else "\n") && Describes(read.value.0, r, env)
  }

  lemma LowerSpells(key: string)
    requires forall c | c in key :: 'a' <= c <= 'z'
    ensures Spells(Ascii(key), key)
  {
    forall i | 0 <= i < |key| ensures Ascii(key)[i] == key[i] as int { assert key[i] in key; }
  }

  lemma KeysSpell()
    ensures Spells(Ascii("time"), "time") && Spells(Ascii("level"), "level") && Spells(Ascii("category"), "category")
    ensures Spells(Ascii("pid"), "pid") && Spells(Ascii("tid"), "tid") && Spells(Ascii("file"), "file")
    ensures Spells(Ascii("line"), "line") && Spells(Ascii("msg"), "msg") && Spells(Ascii("fields"), "fields")
  {
    hide Spells;
    LowerSpells("time");
    LowerSpells("level");
    LowerSpells("category");
    LowerSpells("pid");
    LowerSpells("tid");
    LowerSpells("file");
    LowerSpells("line");
    LowerSpells("msg");
    LowerSpells("fields");
  }

  lemma NewlineSpells(env: Env)
    ensures Spells(NewlineBytes(env.crlf), if env.crlf then "\r\n" else "\n")
  {
  }

  /** The members in front of the message, and the message. */
  function Eight(r: Record, env: Env): (ms: seq<Member>)
    ensures |ms| == 8
  {
    [Member(Ascii("time"), Chars(TimeText(r, env))), Member(Ascii("level"), Chars(LevelTag(r.level))),
     Member(Ascii("category"), Chars(r.category)), Member(Ascii("pid"), Numeral(Content(Pid, r, true, env))),
     Member(Ascii("tid"), Numeral(Content(Tid, r, true, env))), Member(Ascii("file"), Chars(FileText(r, env))),
     Member(Ascii("line"), Numeral(Content(LineNumber, r, true, env))), Member(Ascii("msg"), Chars(r.text))]
  }

  lemma EightTell(r: Record, env: Env)
    requires env.sourceLoc
    ensures TellsRecord(Eight(r, env), r, env)
  {
    KeysSpell();
    Numbers(r, env);
    LevelShows(r, env);
    hide Ascii, Spells, SpellsInt, LevelTag, ShowsLevel, Content, TimeText;
  }

  lemma LevelShows(r: Record, env: Env)
    ensures ShowsLevel(LevelTag(r.level), r.level)
  {
    ContentShows(Level, r, true, env);
    LevelIs(r, env);
    hide LevelTag, ShowsLevel, Content;
  }

  lemma EightDescribe(r: Record, env: Env, more: seq<Member>)
    requires env.sourceLoc
    requires if HasFields(r) then |more| == 1 && more[0].key == Ascii("fields") && more[0].value.Object?
                                  && Lists(more[0].value.members, r.wire.value, r.fieldCount, env)
             else more == []
    ensures Describes(Eight(r, env) + more, r, env)
  {
    EightTell(r, env);
    LowerSpells("fields");
    hide Eight, Lists, Spells, TextMember, IntMember, ShowsLevel;
    var e := Eight(r, env);
    forall i | 0 <= i < 8 ensures (e + more)[i] == e[i] {}
  }

  lemma LevelIs(r: Record, env: Env)
    ensures Content(Level, r, true, env) == LevelTag(r.level)
  {
    hide LevelTag;
  }

  lemma PrefixedEight(r: Record, env: Env, ms: seq<Member>, last: seq<byte>)
    ensures var e := Eight(r, env);
            Prefixed(e[0], Prefixed(e[1], Prefixed(e[2], Prefixed(e[3], Prefixed(e[4], Prefixed(e[5], Prefixed(e[6],
            Prefixed(e[7], Some((ms, last))))))))))
            == Some((e + ms, last))
  {
    hide Eight;
    var e := Eight(r, env);
    assert e[7..] == [e[7]] && e[6..] == [e[6]] + e[7..] && e[5..] == [e[5]] + e[6..];
    assert e[4..] == [e[4]] + e[5..] && e[3..] == [e[3]] + e[4..] && e[2..] == [e[2]] + e[3..];
    assert e[1..] == [e[1]] + e[2..] && e == [e[0]] + e[1..];
    Onto(e[7], [], ms);
    Onto(e[6], e[7..], ms);
    Onto(e[5], e[6..], ms);
    Onto(e[4], e[5..], ms);
    Onto(e[3], e[4..], ms);
    Onto(e[2], e[3..], ms);
    Onto(e[1], e[2..], ms);
    Onto(e[0], e[1..], ms);
  }

  lemma Onto(m: Member, a: seq<Member>, b: seq<Member>)
    ensures [m] + (a + b) == ([m] + a) + b && [m] + [] == [m] && [] + b == b
  {
  }

  /** The time in front of the other members. */
  function Timed(r: Record, env: Env, rest: seq<byte>): seq<byte> {
    ([QUOTE] + Ascii("time") + [QUOTE, 0x3A] + ([QUOTE] + TimeText(r, env) + [QUOTE])) + ([0x2C] + rest)
  }

  lemma TimeReads(r: Record, env: Env, rest: seq<byte>)
    requires Unescaped(TimeText(r, env))
    ensures ReadMembers(Timed(r, env, rest))
            == Prefixed(Member(Ascii("time"), Chars(TimeText(r, env))), ReadMembers(rest))
  {
    KeysOk();
    UnescapedIsSame(TimeText(r, env));
    UnescapedIsSame(Ascii("time"));
    assert ([0x2C] + rest)[1..] == rest;
    hide ReadMembers, JsonObject.ReadValue, Escaped, Unescaped, TimeText;
    var val := [QUOTE] + Escaped(TimeText(r, env)) + [QUOTE];
    CharsRead(TimeText(r, env), [0x2C] + rest, val + ([0x2C] + rest));
    MemberReads(Ascii("time"), val, Chars(TimeText(r, env)), [0x2C] + rest, Timed(r, env, rest));
  }

  /** The members read from the line are the eight and those behind them. */
  lemma LineReads(r: Record, env: Env) returns (rest: seq<byte>, more: Members)
    ensures Gives(JsonTemplate(), r, env, [0x7B] + Timed(r, env, rest)) && rest != [] && rest[0] == QUOTE
    ensures more == if HasFields(r) then ReadMembers(FieldsPart(r, env) + ([0x7D] + NewlineBytes(env.crlf)))
                    else Some(([], NewlineBytes(env.crlf)))
    ensures var read := ReadMembers(Timed(r, env, rest));
            && (Unescaped(TimeText(r, env)) && (!env.sourceLoc || more.None?) ==> read.None?)
            && (Unescaped(TimeText(r, env)) && env.sourceLoc && more.Some? ==>
                  read == Some((Eight(r, env) + more.value.0, more.value.1)))
            && (!env.sourceLoc ==> ReadMembers(rest).None?)
  {
    hide Gives, ReadMembers, Content, SpellsInt, FieldsPart, Ascii, Unescaped, TimeText, FileText, JsonTemplate,
         LevelTag, StrPart, KeyOk, Named;
    var t, end;
    t, rest, end := HeadYields(r, env);
    KeysOk();
    NamesOk();
    Texts(r, env);
    var line := StrGives("time", "time", Time, t, r, env, rest);
    LiteralGives([0x7B], Then(StrPart("time", "time"), t), r, env, line);
    Numbers(r, env);
    more := if HasFields(r) then ReadMembers(FieldsPart(r, env) + ([0x7D] + NewlineBytes(env.crlf)))
            else Some(([], NewlineBytes(env.crlf)));
    var m := Member(Ascii("msg"), Chars(r.text));
    assert [m] + [] == [m];
    assert end == Prefixed(m, more);
    if Unescaped(TimeText(r, env)) { TimeReads(r, env, rest); }
    if env.sourceLoc {
      NotEmpty(Content(LineNumber, r, true, env), if r.line > 0 then r.line else 0);
      if more.Some? { PrefixedEight(r, env, more.value.0, more.value.1); }
    }
  }

  // ---------------------------------------------------------------- a time that needs escaping

  /** No text reads as itself once reading it has fallen behind: from offset `p` of it, with
      only `q` characters read. */
  lemma {:induction false} BehindForGood(t: seq<byte>, rest: seq<byte>, s: seq<byte>, p: nat, q: nat)
    requires s == t + ([0x22, 0x2C, 0x22] + rest) && q <= p <= |t| && q < |t|
    requires q < p || s[p] == '\\' as int
    ensures ReadString(s[p..]).Some? ==> ReadString(s[p..]).value.0 != t[q..]
    decreases |t| - p
  {
    hide ReadString, ReadChar;
    var v := s[p..];
    assert v != [] && v[0] == s[p];
    ReadOn(v);
    if p == |t| {
      assert s[p] == '"' as int && t[q..] != [];
    } else if s[p] != '"' as int && ReadChar(v).Some? {
      var (c, n) := ReadChar(v).value;
      assert v[n..] == s[p + n..];
      if p + n <= |t| {
        BehindForGood(t, rest, s, p + n, q + 1);
      } else {
        Jumps(t, rest, s, p, q, c, n);
      }
      if ReadString(v[n..]).Some? { OneOff(c, ReadString(v[n..]).value.0, t, q); }
    }
  }

  lemma OneOff(c: byte, x: seq<byte>, t: seq<byte>, q: nat)
    requires q < |t| && x != t[q + 1..]
    ensures [c] + x != t[q..]
  {
    assert ([c] + x)[1..] == x && t[q..][1..] == t[q + 1..];
  }

  /** The first character of a string. */
  lemma ReadOn(v: seq<byte>)
    requires v != []
    ensures v[0] == '"' as int ==> ReadString(v) == Some(([], v[1..]))
    ensures v[0] != '"' as int && ReadChar(v).None? ==> ReadString(v).None?
    ensures v[0] != '"' as int && ReadChar(v).Some? ==>
              var (c, n) := ReadChar(v).value;
              && 1 <= n <= |v| && (v[0] == '\\' as int ==> n >= 2)
              && ReadString(v) == match ReadString(v[n..]) case None => None
                                  case Some((x, rest)) => Some(([c] + x, rest))
  {
    ReadCharAdvances(v);
  }

  lemma EscapeLength(w: seq<byte>, e: nat, c: byte, n: nat)
    requires ReadChar(w) == Some((c, n)) && 0 < e < n <= |w| && w[e] == '"' as int
    ensures n == 2 && e == 1 && w[0] == '\\' as int
  {
    assert Digit('"' as int).None?;
  }

  /** An escape that reaches over the end of the text ends in the quote behind it. */
  lemma Jumps(t: seq<byte>, rest: seq<byte>, s: seq<byte>, p: nat, q: nat, c: byte, n: nat)
    requires s == t + ([0x22, 0x2C, 0x22] + rest) && q <= p < |t| < p + n <= |s| && ReadChar(s[p..]) == Some((c, n))
    ensures ReadString(s[p + n..]).Some? ==> ReadString(s[p + n..]).value.0 != t[q + 1..]
  {
    var w, e := s[p..], |t| - p;
    assert w[e] == s[|t|] == '"' as int && w[0] == t[p];
    EscapeLength(w, e, c, n);
    var v := s[p + n..];
    assert v[0] == ',' as int && v[1..][0] == '"' as int;
    assert ReadString(v) == Some(([v[0]] + [], v[1..][1..]));
    assert t[|t| - 1] == '\\' as int && (|t[q + 1..]| == 1 ==> t[q + 1..][0] == t[|t| - 1]);
  }

  /** A text reads as itself only if nothing in it needs escaping. */
  lemma {:induction false} SelfReading(t: seq<byte>, rest: seq<byte>, s: seq<byte>)
    requires s == t + ([0x22, 0x2C, 0x22] + rest) && !Unescaped(t)
    ensures ReadString(s).Some? ==> ReadString(s).value.0 != t
  {
    ReadCharAdvances(s);
    assert t != [] && s[0] == t[0] && s[0..] == s && t[0..] == t;
    if t[0] == '\\' as int {
      BehindForGood(t, rest, s, 0, 0);
    } else if t[0] >= 0x20 && t[0] != '"' as int {
      assert s[1..] == t[1..] + ([0x22, 0x2C, 0x22] + rest);
      assert !Unescaped(t[1..]) by { assert t == [t[0]] + t[1..]; }
      SelfReading(t[1..], rest, s[1..]);
      if ReadString(s[1..]).Some? {
        assert ([t[0]] + ReadString(s[1..]).value.0)[1..] == ReadString(s[1..]).value.0;
      }
    }
  }

  lemma ObjectOf(line: seq<byte>)
    ensures ReadObject([0x7B] + line) == ReadMembers(line)
            || (ReadMembers(line).None? && ReadObject([0x7B] + line).Some? && ReadObject([0x7B] + line).value.0 == [])
  {
    assert ([0x7B] + line)[1..] == line;
  }

  /** The first member of the line holds the time only if it reads as itself. */
  lemma TimeIsMangled(r: Record, env: Env, rest: seq<byte>)
    requires !Unescaped(TimeText(r, env)) && rest != [] && rest[0] == QUOTE
    ensures var read := ReadMembers(Timed(r, env, rest));
            read.Some? ==> read.value.0 != [] && read.value.0[0].value != Chars(TimeText(r, env))
  {
    hide Escaped, Unescaped, TimeText, Ascii, Timed;
    var time, line := TimeText(r, env), Timed(r, env, rest);
    var s := time + ([0x22, 0x2C, 0x22] + rest[1..]);
    var behind := [0x3A] + ([QUOTE] + s);
    TimedIs(r, env, rest);
    StringReads(Ascii("time"), behind, line[1..]);
    assert behind[1..] == [QUOTE] + s && ([QUOTE] + s)[1..] == s;
    hide ReadString;
    SelfReading(time, rest[1..], s);
  }

  lemma TimedIs(r: Record, env: Env, rest: seq<byte>)
    requires rest != [] && rest[0] == QUOTE
    ensures var s := TimeText(r, env) + ([0x22, 0x2C, 0x22] + rest[1..]); var line := Timed(r, env, rest);
            line != [] && line[0] == QUOTE && line[1..] == Escaped(Ascii("time")) + ([QUOTE] + ([0x3A] + ([QUOTE] + s)))
  {
    KeysOk();
    UnescapedIsSame(Ascii("time"));
    hide Escaped, Unescaped, TimeText, Ascii;
    assert rest == [0x22] + rest[1..];
    Unfold(Ascii("time"), TimeText(r, env), rest[1..]);
  }

  lemma Unfold(key: seq<byte>, time: seq<byte>, more: seq<byte>)
    ensures ([QUOTE] + key + [QUOTE, 0x3A] + ([QUOTE] + time + [QUOTE])) + ([0x2C] + ([0x22] + more))
            == [QUOTE] + (key + ([QUOTE] + ([0x3A] + ([QUOTE] + (time + ([0x22, 0x2C, 0x22] + more))))))
  {
  }

  /** Main result. The line of the built-in json template (with no limit in the way) is a JSON
      object with the record's time, level, category, process, thread, file, line and message
      and its fields, each with its value, followed by the newline, if and only if the record
      is complete. Otherwise it is no JSON, or does not tell the record. */
  lemma JsonLineReadsBack(r: Record, env: Env) returns (line: seq<byte>)
    ensures Gives(JsonTemplate(), r, env, line)
    ensures ReadsAs(line, r, env) <==> Complete(r, env)
  {
    hide Gives, ReadMembers, FieldsPart, Unescaped, TimeText, JsonTemplate, Eight, Describes, Lists, AllPrintable,
         ReadObject, Spells, Timed;
    var rest, more := LineReads(r, env);
    var inner := Timed(r, env, rest);
    line := [0x7B] + inner;
    ObjectOf(inner);
    NewlineSpells(env);
    EmptyIsNone(r, env);
    if Complete(r, env) {
      if HasFields(r) {
        var fs := FieldsYield(r, env);
        EightDescribe(r, env, [Member(Ascii("fields"), Object(fs))]);
      } else {
        EightDescribe(r, env, []);
      }
    } else if ReadsAs(line, r, env) {
      TimeIsThere(ReadObject(line).value.0, r, env);
      if !Unescaped(TimeText(r, env)) {
        TimeIsMangled(r, env, rest);
      } else if env.sourceLoc {
        NestedAreJson(inner);
        FieldsOf(ReadObject(line).value.0, r, env);
      }
    }
  }

  lemma TimeIsThere(ms: seq<Member>, r: Record, env: Env)
    requires Describes(ms, r, env)
    ensures ms != [] && ms[0].value == Chars(TimeText(r, env))
  {
    hide Spells, SpellsInt, Lists, TimeText;
  }

  lemma EmptyIsNone(r: Record, env: Env)
    ensures !Describes([], r, env)
  {
  }

  lemma FieldsOf(ms: seq<Member>, r: Record, env: Env)
    requires HasFields(r) && Describes(ms, r, env)
    requires forall m | m in ms && m.value.Object? :: AllNumerals(m.value.members)
    ensures AllPrintable(r.wire.value, r.fieldCount, env)
  {
    hide Lists, AllPrintable, AllNumerals, Spells, SpellsInt;
    hide TellsRecord;
    assert ms[8] in ms;
    ListedArePrintable(ms[8].value.members, r.wire.value, r.fieldCount, env);
  }
}
