/** An independent reader of JSON objects whose members are strings, numbers, truth values and
    objects (sections 3, 4, 6 and 7 of RFC 8259), without white space. */
module JsonObject {
  import opened Bytes
  import opened Options
  import opened JsonText

  /** A member's value; a number as it is spelled. */
  datatype Json = Chars(s: seq<byte>) | Numeral(text: seq<byte>) | Truth(b: bool) | Object(members: seq<Member>)

  datatype Member = Member(key: seq<byte>, value: Json)

  predicate Spells(t: seq<byte>, word: string) {
    |t| == |word| && forall k | 0 <= k < |t| :: t[k] == word[k] as int
  }

  // ---------------------------------------------------------------- numbers

  /** How many decimal digits stand at the front. */
  function Lead(s: seq<byte>): (n: nat)
    ensures n <= |s|
  {
    if s != [] && 0x30 <= s[0] <= 0x39 then 1 + Lead(s[1..]) else 0
  }

  predicate IsExponent(s: seq<byte>) {
    s == []
    || ((s[0] == 'e' as int || s[0] == 'E' as int)
        && var a := s[1..];
           var b := if a != [] && (a[0] == '+' as int || a[0] == '-' as int) then a[1..] else a;
           b != [] && Lead(b) == |b|)
  }

  predicate IsFraction(s: seq<byte>) {
    if s != [] && s[0] == '.' as int then Lead(s[1..]) > 0 && IsExponent(s[1 + Lead(s[1..])..]) else IsExponent(s)
  }

  /** A number of section 6: no leading zeros, and digits after the point and the e. */
  predicate IsNumeral(s: seq<byte>) {
    var a := if s != [] && s[0] == '-' as int then s[1..] else s;
    Lead(a) > 0 && (a[0] == '0' as int ==> Lead(a) == 1) && IsFraction(a[Lead(a)..])
  }

  predicate Ends(c: byte) { c == ',' as int || c == '}' as int }

  lemma {:induction false} LeadIsDigits(s: seq<byte>)
    ensures forall k | 0 <= k < Lead(s) :: 0x30 <= s[k] <= 0x39
  {
    if s != [] && 0x30 <= s[0] <= 0x39 { LeadIsDigits(s[1..]); }
  }

  /** No byte that ends a token or starts a string or an object. */
  predicate Solid(s: seq<byte>) { forall c | c in s :: !Ends(c) && c != '"' as int && c != '{' as int }

  lemma SolidJoins(a: seq<byte>, b: seq<byte>)
    requires Solid(a) && Solid(b)
    ensures Solid(a + b)
  {
  }

  lemma LeadIsSolid(s: seq<byte>)
    ensures Solid(s[..Lead(s)]) && s == s[..Lead(s)] + s[Lead(s)..]
  {
    LeadIsDigits(s);
  }

  lemma ExponentIsSolid(s: seq<byte>)
    requires IsExponent(s)
    ensures Solid(s)
  {
    if s != [] {
      var a := s[1..];
      var signed := a != [] && (a[0] == '+' as int || a[0] == '-' as int);
      var b := if signed then a[1..] else a;
      LeadIsSolid(b);
      assert b[..Lead(b)] == b && s == (if signed then [s[0], a[0]] else [s[0]]) + b;
      SolidJoins(if signed then [s[0], a[0]] else [s[0]], b);
    }
  }

  lemma FractionIsSolid(s: seq<byte>)
    requires IsFraction(s)
    ensures Solid(s)
  {
    if s != [] && s[0] == '.' as int {
      var a := s[1..];
      LeadIsSolid(a);
      ExponentIsSolid(a[Lead(a)..]);
      assert Solid([s[0]]);
      hide Solid, IsExponent;
      SolidJoins(a[..Lead(a)], a[Lead(a)..]);
      SolidJoins([s[0]], a);
      assert s == [s[0]] + a;
    } else {
      ExponentIsSolid(s);
    }
  }

  lemma NumeralIsSolid(s: seq<byte>)
    requires IsNumeral(s)
    ensures s != [] && Solid(s)
  {
    var minus := s != [] && s[0] == '-' as int;
    var a := if minus then s[1..] else s;
    LeadIsSolid(a);
    FractionIsSolid(a[Lead(a)..]);
    assert minus ==> Solid([s[0]]) && s == [s[0]] + a;
    hide Solid, IsFraction;
    SolidJoins(a[..Lead(a)], a[Lead(a)..]);
    if minus { SolidJoins([s[0]], a); }
  }

  // ---------------------------------------------------------------- reading

  /** The bytes up to the next comma or closing brace. */
  function TokenLen(s: seq<byte>): (n: nat)
    ensures n <= |s|
  {
    if s == [] || Ends(s[0]) then 0 else 1 + TokenLen(s[1..])
  }

  /** A value that is no string and no object. */
  function ReadToken(t: seq<byte>): Option<Json> {
    if Spells(t, "true") then Some(Truth(true))
    else if Spells(t, "false") then Some(Truth(false))
    else if IsNumeral(t) then Some(Numeral(t))
    else None
  }

  function ReadValue(s: seq<byte>): (r: Option<(Json, seq<byte>)>)
    ensures r.Some? ==> |r.value.1| <= |s|
    decreases |s|, 2
  {
    if s != [] && s[0] == '"' as int then
      ReadStringAdvances(s[1..]);
      match ReadString(s[1..])
      case None => None
      case Some((text, rest)) => Some((Chars(text), rest))
    else if s != [] && s[0] == '{' as int then
      match ReadObject(s)
      case None => None
      case Some((ms, rest)) => Some((Object(ms), rest))
    else
      match ReadToken(s[..TokenLen(s)])
      case None => None
      case Some(v) => Some((v, s[TokenLen(s)..]))
  }

  /** Members separated by commas up to the closing brace, and what follows it. */
  function ReadMembers(s: seq<byte>): (r: Option<(seq<Member>, seq<byte>)>)
    ensures r.Some? ==> |r.value.1| <= |s|
    decreases |s|, 0
  {
    if s == [] || s[0] != '"' as int then None
    else
      ReadStringAdvances(s[1..]);
      match ReadString(s[1..])
      case None => None
      case Some((key, rest)) =>
        if rest == [] || rest[0] != ':' as int then None
        else
          match ReadValue(rest[1..])
          case None => None
          case Some((v, after)) =>
            if after == [] then None
            else if after[0] == '}' as int then Some(([Member(key, v)], after[1..]))
            else if after[0] != ',' as int then None
            else
              match ReadMembers(after[1..])
              case None => None
              case Some((more, last)) => Some(([Member(key, v)] + more, last))
  }

  /** The members of an object, and what follows it. */
  function ReadObject(s: seq<byte>): (r: Option<(seq<Member>, seq<byte>)>)
    ensures r.Some? ==> |r.value.1| <= |s|
    decreases |s|, 1
  {
    if s == [] || s[0] != '{' as int then None
    else if |s| > 1 && s[1] == '}' as int then Some(([], s[2..]))
    else ReadMembers(s[1..])
  }

  // ---------------------------------------------------------------- what is read

  predicate AllNumerals(ms: seq<Member>) { forall m | m in ms && m.value.Numeral? :: IsNumeral(m.value.text) }

  lemma ValueIsJson(s: seq<byte>)
    ensures ReadValue(s).Some? && ReadValue(s).value.0.Numeral? ==> IsNumeral(ReadValue(s).value.0.text)
  {
    hide IsNumeral, Spells, TokenLen, ReadString, ReadMembers;
  }

  /** Only numerals are read as numbers. */
  lemma {:induction false} MembersAreJson(s: seq<byte>)
    ensures ReadMembers(s).Some? ==> AllNumerals(ReadMembers(s).value.0)
    decreases |s|
  {
    hide ReadString, IsNumeral, ReadValue, AllNumerals;
    if s != [] && s[0] == '"' as int && ReadString(s[1..]).Some? {
      ReadStringAdvances(s[1..]);
      var (key, rest) := ReadString(s[1..]).value;
      if rest != [] && ReadValue(rest[1..]).Some? {
        ValueIsJson(rest[1..]);
        var (v, after) := ReadValue(rest[1..]).value;
        if after != [] {
          MembersAreJson(after[1..]);
          OneMember(Member(key, v), if ReadMembers(after[1..]).Some? then ReadMembers(after[1..]).value.0 else []);
        }
      }
    }
  }

  lemma OneMember(m: Member, more: seq<Member>)
    requires m.value.Numeral? ==> IsNumeral(m.value.text)
    ensures AllNumerals([m]) && (AllNumerals(more) ==> AllNumerals([m] + more))
  {
    hide IsNumeral;
  }

  lemma {:induction false} TokenEnds(t: seq<byte>, rest: seq<byte>, s: seq<byte>)
    requires s == t + rest && rest != [] && Ends(rest[0]) && forall c | c in t :: !Ends(c)
    ensures TokenLen(s) == |t|
  {
    if t != [] {
      assert t[0] in t && s[0] == t[0] && s[1..] == t[1..] + rest;
      TokenEnds(t[1..], rest, s[1..]);
    }
  }

  predicate OneToken(t: seq<byte>) { t != [] && t[0] != QUOTE && t[0] != 0x7B && forall c | c in t :: !Ends(c) }

  lemma TokenReads(t: seq<byte>, rest: seq<byte>, s: seq<byte>)
    requires s == t + rest && rest != [] && Ends(rest[0]) && OneToken(t)
    ensures ReadValue(s) == match ReadToken(t) case None => None case Some(v) => Some((v, rest))
  {
    hide ReadToken, TokenLen, ReadObject;
    TokenEnds(t, rest, s);
    assert s[..|t|] == t && s[|t|..] == rest && s[0] == t[0];
  }

  lemma CharsRead(text: seq<byte>, rest: seq<byte>, s: seq<byte>)
    requires s == [QUOTE] + Escaped(text) + [QUOTE] + rest
    ensures ReadValue(s) == Some((Chars(text), rest))
  {
    hide Escaped, ReadString;
    assert s[1..] == Escaped(text) + ([QUOTE] + rest);
    StringReads(text, rest, s[1..]);
  }

  lemma ObjectReads(ms: seq<Member>, rest: seq<byte>, s: seq<byte>)
    requires ReadObject(s) == Some((ms, rest))
    ensures ReadValue(s) == Some((Object(ms), rest))
  {
  }

  /** One member in front of others, or of the end. */
  lemma MemberReads(key: seq<byte>, val: seq<byte>, v: Json, rest: seq<byte>, s: seq<byte>)
    requires s == ([QUOTE] + Escaped(key) + [QUOTE, 0x3A] + val) + rest
    requires rest != [] && Ends(rest[0]) && ReadValue(val + rest) == Some((v, rest))
    ensures rest[0] == '}' as int ==> ReadMembers(s) == Some(([Member(key, v)], rest[1..]))
    ensures rest[0] == ',' as int ==>
              ReadMembers(s) == match ReadMembers(rest[1..]) case None => None
                                case Some((more, last)) => Some(([Member(key, v)] + more, last))
  {
    hide Escaped, ReadString, ReadValue;
    var behind := [0x3A] + (val + rest);
    assert s[1..] == Escaped(key) + ([QUOTE] + behind);
    StringReads(key, behind, s[1..]);
    assert s[0] == QUOTE && behind[1..] == val + rest;
  }
}
