/** What each placeholder shows, stated by reading it back: names of levels as words, numbers
    as numbers, text as itself, as a JSON string, or with line breaks and ESC made visible. */
module FormatValues {
  import opened Bytes
  import opened Options
  import opened JsonText
  import opened JsonObject
  import opened FormatTemplate
  import opened FormatLine
  import opened FormatFields

  /** Lower-case hexadecimal behind 0x, without leading zeros. */
  predicate SpellsHex(t: seq<byte>, v: nat) {
    && |t| > 2 && Spells(t[..2], "0x") && DigitsValue(t[2..], 16) == v && (v > 0 ==> t[2] != '0' as int)
    && (v == 0 ==> |t| == 3)
    && forall c | c in t[2..] :: '0' as int <= c <= '9' as int || 'a' as int <= c <= 'f' as int
  }

  lemma {:induction false} HexDigits(v: nat)
    ensures var d := Digits(v, 16);
            && |d| > 0 && (v > 0 ==> d[0] != '0' as int) && (v == 0 ==> |d| == 1)
            && forall c | c in d :: '0' as int <= c <= '9' as int || 'a' as int <= c <= 'f' as int
  {
    if v >= 16 { HexDigits(v / 16); }
  }

  lemma NumbersRead(v: nat)
    ensures SpellsInt(NumberText(v, false), v) && SpellsHex(NumberText(v, true), v)
  {
    hide Digits, DigitsValue;
    DigitsAreLead(v);
    NumberReadsBack(v, 10);
    assert Digits(v, 10)[0] in Digits(v, 10);
    HexDigits(v);
    NumberReadsBack(v, 16);
    assert NumberText(v, true)[2..] == Digits(v, 16);
    assert NumberText(v, true)[..2] == [0x30, 0x78];
  }

  /** Inside quotes `t` is the JSON string `s`, whatever follows the closing quote. */
  ghost predicate Quotes(t: seq<byte>, s: seq<byte>) {
    forall rest: seq<byte> :: ReadString(t + (['"' as int] + rest)) == Some((s, rest))
  }

  lemma EscapedQuotes(s: seq<byte>)
    ensures Quotes(Escaped(s), s)
  {
    hide Escaped, ReadString;
    forall rest: seq<byte> ensures ReadString(Escaped(s) + (['"' as int] + rest)) == Some((s, rest)) {
      StringReads(s, rest, Escaped(s) + ([QUOTE] + rest));
    }
  }

  /** `t` is `s` with line breaks shown as \n and ESC as \x1b. */
  predicate MadeVisible(t: seq<byte>, s: seq<byte>) {
    if s == [] then t == []
    else
      var c := s[0];
      if c == 10 || c == 13 then |t| >= 2 && Spells(t[..2], "\\n") && MadeVisible(t[2..], s[1..])
      else if c == 27 then |t| >= 4 && Spells(t[..4], "\\x1b") && MadeVisible(t[4..], s[1..])
      else |t| >= 1 && t[0] == c && MadeVisible(t[1..], s[1..])
  }

  lemma {:induction false} VisiblesMadeVisible(s: seq<byte>)
    ensures MadeVisible(Visibles(s), s)
  {
    if s != [] {
      var v, later := Visible(s[0]), Visibles(s[1..]);
      VisiblesMadeVisible(s[1..]);
      assert (v + later)[..|v|] == v && (v + later)[|v|..] == later;
    }
  }

  /** A number in its style; json shows it in decimal always. */
  predicate ShowsNumber(t: seq<byte>, v: nat, style: NumberStyle, json: bool) {
    if json || style == Decimal then SpellsInt(t, v)
    else if style == Hexadecimal then SpellsHex(t, v)
    else t == []
  }

  /** A string that may be absent. */
  ghost predicate ShowsPart(t: seq<byte>, s: Option<seq<byte>>, json: bool) {
    match s
    case None => t == []
    case Some(v) => if json then Quotes(t, v) else t == v
  }

  predicate ShowsLevel(t: seq<byte>, level: int) {
    if level == 0 then Spells(t, "TRACE")
    else if level == 1 then Spells(t, "DEBUG")
    else if level == 2 then Spells(t, "INFO")
    else if level == 3 then Spells(t, "WARN")
    else if level == 4 then Spells(t, "ERROR")
    else if level == 5 then Spells(t, "FATAL")
    else t == []
  }

  /** What the value of kind `k` shows of the record. */
  ghost predicate Shows(t: seq<byte>, k: Kind, r: Record, json: bool, env: Env)
    requires k != Literal && k != Kind.FieldList
  {
    match k
    case Level => ShowsLevel(t, r.level)
    case Time => t == if env.useUtc then r.utcTime else r.localTime
    case TimeUtc => t == r.utcTime
    case Pid => ShowsNumber(t, env.pid, env.pidStyle, json)
    case Tid => ShowsNumber(t, r.tid, env.tidStyle, json)
    case File => ShowsPart(t, if env.sourceLoc then r.file else None, json)
    case Func => ShowsPart(t, if env.sourceLoc then r.func else None, json)
    case LineNumber => if env.sourceLoc then SpellsInt(t, if r.line > 0 then r.line else 0) else t == []
    case Text =>
      if json then Quotes(t, r.text) else if env.escapeInjection then MadeVisible(t, r.text) else t == r.text
    case Category => ShowsPart(t, Some(r.category), json)
    case Newline => Spells(t, if env.crlf then "\r\n" else "\n")
  }

  /** Every value but the field list shows what its kind says. */
  lemma ContentShows(k: Kind, r: Record, json: bool, env: Env)
    requires k != Literal && k != Kind.FieldList
    ensures Shows(Content(k, r, json, env), k, r, json, env)
  {
    hide SpellsInt, SpellsHex, NumberText, Escaped, Visibles, Quotes, MadeVisible, FormatLine.FieldList;
    match k
    case Pid => NumbersRead(env.pid);
    case Tid => NumbersRead(r.tid);
    case LineNumber => NumbersRead(if r.line > 0 then r.line else 0);
    case File => if r.file.Some? { EscapedQuotes(r.file.value); }
    case Func => if r.func.Some? { EscapedQuotes(r.func.value); }
    case Text =>
      EscapedQuotes(r.text);
      VisiblesMadeVisible(r.text);
    case Category => EscapedQuotes(r.category);
    case _ =>
  }
}
