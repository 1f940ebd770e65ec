/** The line a template asks for, without any bound: what each value renders to, the effect
    of width and precision, and the truncation rule for lines that are too long. */
module FormatLine {
  import opened Bytes
  import opened Options
  import opened JsonText
  import opened Fields
  import opened FormatTemplate

  /** One log record. `localTime` and `utcTime` are what the platform's time formatting gives
      for its timestamp; an absent category is empty and an absent field region None. */
  datatype Record = Record(level: int, category: seq<byte>, file: Option<seq<byte>>, func: Option<seq<byte>>,
                           line: int, text: seq<byte>, tid: nat, wire: Option<seq<byte>>, fieldCount: nat,
                           localTime: seq<byte>, utcTime: seq<byte>)

  datatype NumberStyle = Decimal | Hexadecimal | Hidden

  /** The render environment. `float` is how %.17g prints a double, given its 64 bits, and
      `behind` the memory that follows the field region, which the fixed-width reads of
      scalar values may reach into. */
  datatype Env = Env(useUtc: bool, crlf: bool, pid: nat, pidStyle: NumberStyle, tidStyle: NumberStyle,
                     sourceLoc: bool, escapeInjection: bool, float: nat -> seq<byte>, behind: nat -> byte)

  function NewlineBytes(crlf: bool): seq<byte> { if crlf then [13, 10] else [10] }

  function LevelTag(level: int): seq<byte> {
    if level == 0 then [0x54, 0x52, 0x41, 0x43, 0x45]  // TRACE
    else if level == 1 then [0x44, 0x45, 0x42, 0x55, 0x47]  // DEBUG
    else if level == 2 then [0x49, 0x4E, 0x46, 0x4F]  // INFO
    else if level == 3 then [0x57, 0x41, 0x52, 0x4E]  // WARN
    else if level == 4 then [0x45, 0x52, 0x52, 0x4F, 0x52]  // ERROR
    else if level == 5 then [0x46, 0x41, 0x54, 0x41, 0x4C]  // FATAL
    else []
  }

  function Digits(v: nat, base: nat): seq<byte>
    requires 2 <= base <= 16
  {
    if v < base then [Hex(v)] else Digits(v / base, base) + [Hex(v % base)]
  }

  function NumberText(v: nat, hex: bool): seq<byte> {
    if hex then [0x30, 0x78] + Digits(v, 16) else Digits(v, 10)
  }

  /** Injection escaping of one byte: line breaks and ESC become visible text. */
  function Visible(c: byte): seq<byte> {
    if c == 10 || c == 13 then [BACKSLASH, 0x6E]
    else if c == 0x1B then [BACKSLASH, 0x78, 0x31, 0x62]
    else [c]
  }

  function Visibles(s: seq<byte>): seq<byte> {
    if s == [] then [] else Visible(s[0]) + Visibles(s[1..])
  }

  function TextOf(s: seq<byte>, json: bool, inject: bool): seq<byte> {
    if json then Escaped(s) else if inject then Visibles(s) else s
  }

  const TRUE_TEXT: seq<byte> := [0x74, 0x72, 0x75, 0x65]
  const FALSE_TEXT: seq<byte> := [0x66, 0x61, 0x6C, 0x73, 0x65]

  /** The n-byte integer at the start of `rest`, read past its end if it is shorter. */
  function Fetch(rest: seq<byte>, n: nat, env: Env): nat { FromLE(FetchBytes(rest, n, env)) }

  function FetchBytes(rest: seq<byte>, n: nat, env: Env): seq<byte> {
    if n == 0 then []
    else FetchBytes(rest, n - 1, env) + [if n <= |rest| then rest[n - 1] else env.behind(n - 1 - |rest|)]
  }

  /** A 64-bit pattern printed as a signed number. */
  function SignedText(bits: nat): seq<byte> {
    if bits < 0x8000_0000_0000_0000 then Digits(bits, 10)
    else if bits <= 0xFFFF_FFFF_FFFF_FFFF then [MINUS] + Digits(0x1_0000_0000_0000_0000 - bits, 10)
    else []
  }

  /** A value that is not a string: eight bytes are read for a number and four for a
      boolean, whatever length the entry has. */
  function ScalarText(tag: byte, rest: seq<byte>, env: Env): seq<byte> {
    if tag == 0 then SignedText(Fetch(rest, 8, env))
    else if tag == 1 then Digits(Fetch(rest, 8, env), 10)
    else if tag == 2 then env.float(Fetch(rest, 8, env))
    else if tag == 3 then if Fetch(rest, 4, env) != 0 then TRUE_TEXT else FALSE_TEXT
    else []
  }

  /** One field; `rest` is the region from its value on. */
  function FieldText(s: Span, rest: seq<byte>, json: bool, env: Env, first: bool): seq<byte> {
    var sep: seq<byte> := if first then [] else if json then [COMMA] else [0x20];
    var key: seq<byte> := if json then [QUOTE] + Escaped(s.key) + [QUOTE, 0x3A]
                          else TextOf(s.key, false, env.escapeInjection) + [0x3D];
    var val: seq<byte> := if s.tag != 4 then ScalarText(s.tag, rest, env)
                          else if json then [QUOTE] + Escaped(s.val) + [QUOTE]
                          else TextOf(s.val, false, env.escapeInjection);
    sep + key + val
  }

  function FieldsFrom(wire: seq<byte>, n: nat, json: bool, env: Env, first: bool): seq<byte>
    decreases n
  {
    if n == 0 then [] else
    match FirstSpan(wire)
    case None => []
    case Some(s) =>
      if 6 + |s.key| <= |wire| && SpanLen(s) <= |wire| then
        FieldText(s, wire[6 + |s.key|..], json, env, first) + FieldsFrom(wire[SpanLen(s)..], n - 1, json, env, false)
      else []
  }

  /** ,"fields":{ */
  const FIELDS_OPEN: seq<byte> := [0x2C, 0x22, 0x66, 0x69, 0x65, 0x6C, 0x64, 0x73, 0x22, 0x3A, 0x7B]

  function FieldList(r: Record, json: bool, env: Env): seq<byte> {
    if r.fieldCount == 0 || r.wire.None? then []
    else if json then FIELDS_OPEN + FieldsFrom(r.wire.value, r.fieldCount, true, env, true) + [BRACE]
    else FieldsFrom(r.wire.value, r.fieldCount, false, env, true)
  }

  function Styled(v: nat, style: NumberStyle, json: bool): seq<byte> {
    if json then NumberText(v, false)
    else if style == Hidden then []
    else NumberText(v, style == Hexadecimal)
  }

  function Located(s: Option<seq<byte>>, json: bool, env: Env): seq<byte> {
    if env.sourceLoc && s.Some? then TextOf(s.value, json, false) else []
  }

  /** What a value placeholder renders to. */
  function Content(k: Kind, r: Record, json: bool, env: Env): seq<byte> {
    match k
    case Literal => []
    case Level => LevelTag(r.level)
    case Time => if env.useUtc then r.utcTime else r.localTime
    case TimeUtc => r.utcTime
    case Pid => Styled(env.pid, env.pidStyle, json)
    case Tid => Styled(r.tid, env.tidStyle, json)
    case File => Located(r.file, json, env)
    case LineNumber => if env.sourceLoc then NumberText(if r.line < 0 then 0 else r.line, false) else []
    case Func => Located(r.func, json, env)
    case Text => TextOf(r.text, json, env.escapeInjection)
    case Category => TextOf(r.category, json, false)
    case Newline => NewlineBytes(env.crlf)
    case FieldList => FieldList(r, json, env)
  }

  function Spaces(n: nat): (s: seq<byte>)
    ensures |s| == n
  {
    seq(n, _ => 0x20)
  }

  function Cut(m: Mod, content: seq<byte>): seq<byte> {
    if m.hasPrec && |content| > m.prec then content[..m.prec] else content
  }

  /** Precision cuts, width pads with spaces. */
  function Fit(m: Mod, content: seq<byte>): seq<byte> {
    var c := Cut(m, content);
    if |c| >= m.width then c
    else if m.left then c + Spaces(m.width - |c|)
    else Spaces(m.width - |c|) + c
  }

  function PieceText(p: Piece, r: Record, json: bool, env: Env): seq<byte> {
    match p
    case Byte(b) => [b]
    case Value(k, m) => Fit(m, Content(k, r, json, env))
  }

  /** The line, ideally. */
  function LineOf(ps: seq<Piece>, r: Record, json: bool, env: Env): seq<byte> {
    if ps == [] then [] else PieceText(ps[0], r, json, env) + LineOf(ps[1..], r, json, env)
  }

  /** A line that is cut keeps its first bytes and ends with the marker and the newline. */
  function Shortened(line: seq<byte>, max: nat, marker: seq<byte>, newline: seq<byte>): seq<byte>
    requires |line| >= max
  {
    if max > |marker| + |newline| then line[..max - |marker| - |newline|] + marker + newline else newline
  }

  /** The truncation rule: only a line longer than `max` is cut. */
  function Truncated(line: seq<byte>, max: nat, marker: seq<byte>, newline: seq<byte>): seq<byte> {
    if |line| <= max then line else Shortened(line, max, marker, newline)
  }

  predicate Plain(ps: seq<Piece>) { forall p | p in ps && p.Value? :: p.mod == NO_MOD }

  // ---------------------------------------------------------------- the line under a limit

  /** The pieces with those widths dropped whose padding would pass the limit. */
  function Slimmed(ps: seq<Piece>, r: Record, json: bool, env: Env, max: nat): (qs: seq<Piece>)
    ensures |qs| == |ps|
  {
    if ps == [] then []
    else
      var n := |ps| - 1;
      var front := Slimmed(ps[..n], r, json, env, max);
      front + [Slim(ps[n], |LineOf(front, r, json, env)|, r, json, env, max)]
  }

  /** A value that starts at offset `at` and whose padding would pass the limit. */
  predicate PadsPast(p: Piece, at: nat, r: Record, json: bool, env: Env, max: nat) {
    p.Value? && |Cut(p.mod, Content(p.kind, r, json, env))| < p.mod.width && at + p.mod.width > max
  }

  function Slim(p: Piece, at: nat, r: Record, json: bool, env: Env, max: nat): Piece {
    if PadsPast(p, at, r, json, env, max) then p.(mod := p.mod.(width := 0)) else p
  }

  /** A value that starts at offset `at` and is cut by its precision exactly at the limit. */
  predicate StopsAt(p: Piece, at: nat, r: Record, json: bool, env: Env, max: nat) {
    p.Value? && p.mod.hasPrec && |Content(p.kind, r, json, env)| > p.mod.prec && at + p.mod.prec == max
  }

  predicate AnyStops(ps: seq<Piece>, r: Record, json: bool, env: Env, max: nat) {
    exists j | 0 <= j < |ps| :: StopsAt(ps[j], |LineOf(ps[..j], r, json, env)|, r, json, env, max)
  }

  /** What the limit makes of a line: it is cut when it is longer, and also when it has
      exactly that length and the precision of a value stopped there. */
  function Bounded(ps: seq<Piece>, r: Record, json: bool, env: Env, max: nat, marker: seq<byte>): seq<byte> {
    var line := LineOf(ps, r, json, env);
    if |line| > max || (|line| == max && AnyStops(ps, r, json, env, max))
    then Shortened(line, max, marker, NewlineBytes(env.crlf))
    else line
  }

  /** What is rendered for any template, record and limit. */
  function Limited(ps: seq<Piece>, r: Record, json: bool, env: Env, max: nat, marker: seq<byte>): seq<byte> {
    Bounded(Slimmed(ps, r, json, env, max), r, json, env, max, marker)
  }

  // ---------------------------------------------------------------- what the parts mean

  function DigitsValue(s: seq<byte>, base: nat): nat {
    if s == [] then 0
    else DigitsValue(s[..|s| - 1], base) * base + match Digit(s[|s| - 1]) case Some(d) => d case None => 0
  }

  /** A printed number reads back. */
  lemma {:induction false} NumberReadsBack(v: nat, base: nat)
    requires 2 <= base <= 16
    ensures DigitsValue(Digits(v, base), base) == v && Digits(v, base) != []
  {
    hide Digit, Hex, DigitsValue;
    if v < base {
      HexReads(v);
      LastDigit([], Hex(v), v, base);
      NoDigits(base);
      assert [] + [Hex(v)] == [Hex(v)];
    } else {
      NumberReadsBack(v / base, base);
      HexReads(v % base);
      LastDigit(Digits(v / base, base), Hex(v % base), v % base, base);
      DivMod(v, base);
    }
  }

  lemma LastDigit(s: seq<byte>, c: byte, d: nat, base: nat)
    requires Digit(c) == Some(d)
    ensures DigitsValue(s + [c], base) == DigitsValue(s, base) * base + d
  {
    assert (s + [c])[..|s|] == s;
  }

  lemma NoDigits(base: nat)
    ensures DigitsValue([], base) == 0
  {
  }

  lemma DivMod(v: nat, base: nat)
    requires base > 0
    ensures v / base * base + v % base == v
  {
  }

  /** The number a signed text stands for. */
  function SignedValue(s: seq<byte>): int {
    if s != [] && s[0] == MINUS then 0 - DigitsValue(s[1..], 10) else DigitsValue(s, 10)
  }

  lemma {:induction false} FetchReads(bs: seq<byte>, more: seq<byte>, env: Env, n: nat)
    requires n <= |bs|
    ensures FetchBytes(bs + more, n, env) == bs[..n]
  {
    if n > 0 {
      FetchReads(bs, more, env, n - 1);
      assert bs[..n] == bs[..n - 1] + [bs[n - 1]];
    }
  }

  lemma {:induction false} DigitsStart(v: nat)
    ensures Digits(v, 10) != [] && Digits(v, 10)[0] != MINUS
  {
    if v >= 10 { DigitsStart(v / 10); }
  }

  /** A 64-bit number in an entry is printed as its value, whatever follows it. */
  lemma NumbersPrintTheirValue(bits: nat, more: seq<byte>, env: Env)
    requires bits < Pow256(8)
    ensures var rest := LE(bits, 8) + more;
            && DigitsValue(ScalarText(1, rest, env), 10) == bits
            && SignedValue(ScalarText(0, rest, env))
               == if bits < 0x8000_0000_0000_0000 then bits else bits - 0x1_0000_0000_0000_0000
  {
    Widths();
    FetchReads(LE(bits, 8), more, env, 8);
    assert LE(bits, 8)[..8] == LE(bits, 8);
    LERoundTrip(bits, 8);
    assert Fetch(LE(bits, 8) + more, 8, env) == bits;
    hide LE, Digits, DigitsValue, Fetch;
    NumberReadsBack(bits, 10);
    DigitsStart(bits);
    if bits >= 0x8000_0000_0000_0000 {
      var d := Digits(0x1_0000_0000_0000_0000 - bits, 10);
      NumberReadsBack(0x1_0000_0000_0000_0000 - bits, 10);
      assert ([MINUS] + d)[1..] == d;
    }
  }

  lemma FourBytes(a: byte, b: byte, c: byte, d: byte)
    ensures FromLE([a, b, c, d]) == 0 <==> a == b == c == d == 0
  {
    assert [a, b, c, d][1..] == [b, c, d] && [b, c, d][1..] == [c, d] && [c, d][1..] == [d] && [d][1..] == [];
    assert FromLE([d]) == d;
    assert FromLE([c, d]) == c + 256 * FromLE([d]);
    assert FromLE([b, c, d]) == b + 256 * FromLE([c, d]);
  }

  /** A boolean is one byte of the region but is read as four: it is printed as its value if
      and only if that is true or the three bytes behind it are zero. */
  lemma BooleanPrintsItsValue(b: byte, more: seq<byte>, env: Env)
    ensures ScalarText(3, [b] + more, env) == (if b != 0 then TRUE_TEXT else FALSE_TEXT)
            <==> b != 0 || FetchBytes(more, 3, env) == [0, 0, 0]
  {
    var all := [b] + more;
    var x, y, z := FetchBytes(more, 1, env), FetchBytes(more, 2, env), FetchBytes(more, 3, env);
    assert FetchBytes(more, 0, env) == [] && FetchBytes(all, 0, env) == [] && FetchBytes(all, 1, env) == [b];
    assert FetchBytes(all, 2, env) == [b, z[0]];
    assert FetchBytes(all, 3, env) == [b, z[0], z[1]];
    assert FetchBytes(all, 4, env) == [b, z[0], z[1], z[2]];
    FourBytes(b, z[0], z[1], z[2]);
    assert TRUE_TEXT[0] != FALSE_TEXT[0];
    assert z == [z[0], z[1], z[2]];
  }

  /** A false boolean in front of another entry is printed as `true`, unless that entry has
      an empty key and is a signed integer. */
  lemma FalseBeforeAnEntry(next: Span, more: seq<byte>, env: Env)
    requires SpanOk(next)
    ensures ScalarText(3, [0] + (SpanBytes(next) + more), env) == TRUE_TEXT <==> next.key != [] || next.tag != 0
  {
    var bs := SpanBytes(next);
    BooleanPrintsItsValue(0, bs + more, env);
    FetchReads(bs, more, env, 3);
    LowBytes(|next.key|);
    var low := LE(|next.key|, 2);
    assert bs[..3] == low + [next.tag] == [low[0], low[1], next.tag] && low == [low[0], low[1]];
    assert TRUE_TEXT[0] != FALSE_TEXT[0];
  }

  lemma LowBytes(n: nat)
    requires n < 0x1_0000
    ensures LE(n, 2) == [0, 0] <==> n == 0
  {
    Widths();
    LERoundTrip(n, 2);
    assert LE(0, 1) == [0] && LE(0, 2) == [0] + LE(0, 1);
  }

  predicate Unsafe(c: byte) { c == 10 || c == 13 || c == 0x1B }

  lemma VisibleIsSafe(c: byte)
    ensures forall x | x in Visible(c) :: !Unsafe(x)
    ensures !Unsafe(c) ==> Visible(c) == [c]
  {
  }

  /** Injection escaping leaves no line break and no ESC, and no other byte changes. */
  lemma {:induction false} VisiblesAreSafe(s: seq<byte>)
    ensures forall c | c in Visibles(s) :: !Unsafe(c)
    ensures (forall c | c in s :: !Unsafe(c)) ==> Visibles(s) == s
  {
    if s != [] {
      hide Visible, Unsafe;
      var c, later := s[0], s[1..];
      VisibleIsSafe(c);
      VisiblesAreSafe(later);
      assert s == [c] + later && c in s && forall x | x in later :: x in s;
    }
  }

  /** Width is a minimum and precision a maximum; what is shown is the front of the content
      next to spaces only. */
  lemma FitShape(m: Mod, content: seq<byte>)
    ensures var shown := if m.hasPrec && m.prec < |content| then m.prec else |content|;
            var f := Fit(m, content);
            && |f| == (if shown < m.width then m.width else shown)
            && (if m.left then content[..shown] <= f else f[|f| - shown..] == content[..shown])
            && forall x | 0 <= x < |f| && (if m.left then x >= shown else x < |f| - shown) :: f[x] == 0x20
  {
    var c := Cut(m, content);
    if |c| < m.width {
      var pad := Spaces(m.width - |c|);
      assert (c + pad)[..|c|] == c && (pad + c)[|pad|..] == c;
    }
  }

  /** A truncated line is never longer than the limit; it keeps its front and ends with the
      marker and the newline, or with the newline only when there is no room for both. */
  lemma TruncatedFits(line: seq<byte>, max: nat, marker: seq<byte>, newline: seq<byte>)
    requires |newline| <= max
    ensures var t := Truncated(line, max, marker, newline);
            && |t| <= max && (|line| <= max ==> t == line)
            && (|line| > max ==> t[|t| - |newline|..] == newline)
            && (|line| > max > |marker| + |newline| ==>
                  |t| == max && line[..max - |marker| - |newline|] <= t
                  && t[max - |marker| - |newline|..max - |newline|] == marker)
            && (|line| > max && max <= |marker| + |newline| ==> t == newline)
  {
    if |line| > max && max > |marker| + |newline| {
      var front := line[..max - |marker| - |newline|];
      var t := front + marker + newline;
      assert t[|t| - |newline|..] == newline && front <= t && t[|front|..|front| + |marker|] == marker;
    }
  }

  lemma {:induction false} LineConcat(a: seq<Piece>, b: seq<Piece>, r: Record, json: bool, env: Env)
    ensures LineOf(a + b, r, json, env) == LineOf(a, r, json, env) + LineOf(b, r, json, env)
  {
    hide PieceText;
    if a == [] {
      assert a + b == b;
    } else {
      LineConcat(a[1..], b, r, json, env);
      var here, x, y := PieceText(a[0], r, json, env), LineOf(a[1..], r, json, env), LineOf(b, r, json, env);
      assert (a + b)[1..] == a[1..] + b;
      assert LineOf(a + b, r, json, env) == here + (x + y);
      hide LineOf;
      assert here + (x + y) == (here + x) + y;
    }
  }

  lemma {:induction false} LineOfBytes(bs: seq<byte>, r: Record, json: bool, env: Env)
    ensures LineOf(ByteSeq(bs), r, json, env) == bs
  {
    if bs != [] {
      LineOfBytes(bs[1..], r, json, env);
      assert ByteSeq(bs)[1..] == ByteSeq(bs[1..]);
      assert [bs[0]] + bs[1..] == bs;
    }
  }

  /** The spliced field list changes nothing for a record without fields. */
  lemma {:induction false} SpliceIsNeutral(ps: seq<Piece>, r: Record, json: bool, env: Env)
    requires r.fieldCount == 0 || r.wire.None?
    ensures LineOf(InsertFields(ps), r, json, env) == LineOf(ps, r, json, env)
  {
    if ps != [] {
      var n := |ps| - 1;
      var last, v := ps[n], Value(Kind.FieldList, NO_MOD);
      assert ps == ps[..n] + [last];
      LineConcat(ps[..n], [last], r, json, env);
      if last == Byte(BRACE) {
        LineConcat(ps[..n], [v, last], r, json, env);
        EmptyFirst(last, r, json, env);
      } else {
        SpliceIsNeutral(ps[..n], r, json, env);
        LineConcat(InsertFields(ps[..n]), [last], r, json, env);
      }
    }
  }

  lemma EmptyFirst(last: Piece, r: Record, json: bool, env: Env)
    requires r.fieldCount == 0 || r.wire.None?
    ensures LineOf([Value(Kind.FieldList, NO_MOD), last], r, json, env) == LineOf([last], r, json, env)
  {
    var v := Value(Kind.FieldList, NO_MOD);
    assert PieceText(v, r, json, env) == [];
    assert [v, last][1..] == [last];
    assert [] + LineOf([last], r, json, env) == LineOf([last], r, json, env);
  }

  /** And inserts `,"fields":{...}` in front of a brace of the line otherwise. */
  lemma {:induction false} SpliceInsertsFields(ps: seq<Piece>, r: Record, env: Env) returns (a: seq<byte>, b: seq<byte>)
    requires r.fieldCount > 0 && r.wire.Some? && Byte(BRACE) in ps
    ensures LineOf(ps, r, true, env) == a + [BRACE] + b
    ensures LineOf(InsertFields(ps), r, true, env) == a + FieldList(r, true, env) + [BRACE] + b
  {
    hide PieceText, FieldList, LineOf;
    var n := |ps| - 1;
    var front, last, v := ps[..n], ps[n], Value(Kind.FieldList, NO_MOD);
    assert ps == front + [last];
    LineConcat(front, [last], r, true, env);
    if last == Byte(BRACE) {
      LineConcat(front, [v, last], r, true, env);
      a, b := LineOf(front, r, true, env), [];
      TwoPieces(v, last, r, env);
      NoTail(a, FieldList(r, true, env));
    } else {
      var b';
      a, b' := SpliceInsertsFields(front, r, env);
      LineConcat(InsertFields(front), [last], r, true, env);
      b := b' + LineOf([last], r, true, env);
      Tails(a, FieldList(r, true, env), b', LineOf([last], r, true, env));
    }
  }

  lemma NoTail(a: seq<byte>, f: seq<byte>)
    ensures a + [BRACE] == a + [BRACE] + [] && a + (f + [BRACE]) == a + f + [BRACE] + []
  {
  }

  lemma Tails(a: seq<byte>, f: seq<byte>, b: seq<byte>, c: seq<byte>)
    ensures (a + [BRACE] + b) + c == a + [BRACE] + (b + c)
    ensures (a + f + [BRACE] + b) + c == a + f + [BRACE] + (b + c)
  {
  }

  lemma TwoPieces(v: Piece, last: Piece, r: Record, env: Env)
    requires v == Value(Kind.FieldList, NO_MOD) && last == Byte(BRACE)
    ensures LineOf([v, last], r, true, env) == FieldList(r, true, env) + [BRACE]
    ensures LineOf([last], r, true, env) == [BRACE]
  {
    assert [v, last][1..] == [last] && [last][1..] == [];
    assert LineOf([last], r, true, env) == [BRACE] + [];
    assert PieceText(v, r, true, env) == FieldList(r, true, env);
  }

  // ---------------------------------------------------------------- what the limit means

  lemma {:induction false} LineOfPrefix(ps: seq<Piece>, j: nat, r: Record, json: bool, env: Env)
    requires j < |ps|
    ensures LineOf(ps[..j + 1], r, json, env) == LineOf(ps[..j], r, json, env) + PieceText(ps[j], r, json, env)
    ensures LineOf(ps[..j + 1], r, json, env) <= LineOf(ps, r, json, env)
  {
    hide PieceText;
    var here := [ps[j]];
    assert ps[..j + 1] == ps[..j] + here && ps == ps[..j + 1] + ps[j + 1..] && here[1..] == [];
    LineConcat(ps[..j], here, r, json, env);
    LineConcat(ps[..j + 1], ps[j + 1..], r, json, env);
    assert PieceText(ps[j], r, json, env) + [] == PieceText(ps[j], r, json, env);
  }

  /** No width is dropped exactly when no padding of the ideal line passes the limit. */
  lemma {:induction false} SlimmedWhen(ps: seq<Piece>, r: Record, json: bool, env: Env, max: nat)
    ensures Slimmed(ps, r, json, env, max) == ps
            <==> forall j | 0 <= j < |ps| :: !PadsPast(ps[j], |LineOf(ps[..j], r, json, env)|, r, json, env, max)
  {
    hide LineOf, Content, Cut;
    if ps != [] {
      var n := |ps| - 1;
      var front := Slimmed(ps[..n], r, json, env, max);
      SlimmedWhen(ps[..n], r, json, env, max);
      assert ps == ps[..n] + [ps[n]];
      forall j | 0 <= j < n ensures ps[..n][..j] == ps[..j] && ps[..n][j] == ps[j] {}
      if front == ps[..n] {
        assert PadsPast(ps[n], |LineOf(ps[..n], r, json, env)|, r, json, env, max)
               <==> Slim(ps[n], |LineOf(front, r, json, env)|, r, json, env, max) != ps[n];
      } else {
        assert Slimmed(ps, r, json, env, max)[..n] == front;
      }
    }
  }

  /** The pieces with every width dropped. */
  function NoWidths(ps: seq<Piece>): (qs: seq<Piece>)
    ensures |qs| == |ps|
  {
    if ps == [] then []
    else
      var n := |ps| - 1;
      NoWidths(ps[..n]) + [if ps[n].Value? then ps[n].(mod := ps[n].mod.(width := 0)) else ps[n]]
  }

  lemma {:induction false} NoWidthsIsShortest(ps: seq<Piece>, r: Record, json: bool, env: Env, max: nat)
    ensures |LineOf(NoWidths(ps), r, json, env)| <= |LineOf(Slimmed(ps, r, json, env, max), r, json, env)|
  {
    hide LineOf, Content;
    if ps != [] {
      var n := |ps| - 1;
      var a, b := NoWidths(ps), Slimmed(ps, r, json, env, max);
      NoWidthsIsShortest(ps[..n], r, json, env, max);
      LineOfPrefix(a, n, r, json, env);
      LineOfPrefix(b, n, r, json, env);
      assert a[..n] == NoWidths(ps[..n]) && b[..n] == Slimmed(ps[..n], r, json, env, max);
      assert a[..n + 1] == a && b[..n + 1] == b;
    }
  }

  /** A line that is too long even without its padding is cut and marked. */
  lemma TooLongIsMarked(ps: seq<Piece>, r: Record, json: bool, env: Env, max: nat, marker: seq<byte>)
    requires |LineOf(NoWidths(ps), r, json, env)| > max
    ensures var short := LineOf(Slimmed(ps, r, json, env, max), r, json, env);
            && |short| > max
            && Limited(ps, r, json, env, max, marker) == Shortened(short, max, marker, NewlineBytes(env.crlf))
  {
    hide LineOf, Slimmed, NoWidths, AnyStops;
    NoWidthsIsShortest(ps, r, json, env, max);
  }

  /** No width is dropped from a line that fits, or from one without modifiers. */
  lemma {:induction false} SlimmedIsSame(ps: seq<Piece>, r: Record, json: bool, env: Env, max: nat)
    requires |LineOf(ps, r, json, env)| <= max || Plain(ps)
    ensures Slimmed(ps, r, json, env, max) == ps
  {
    hide LineOf, Content;
    if ps != [] {
      var n := |ps| - 1;
      LineOfPrefix(ps, n, r, json, env);
      assert ps[..n + 1] == ps && ps == ps[..n] + [ps[n]];
      SlimmedIsSame(ps[..n], r, json, env, max);
    }
  }

  /** The limit, case by case. A shorter line is rendered as it is. A line of exactly `max`
      bytes is cut if and only if some value was cut by its precision right at the limit. A
      longer line loses the padding that passes the limit; it is then cut if and only if it
      is still too long, or has exactly `max` bytes and such a value. Without modifiers, and
      for longer lines none of whose padding passes the limit, the truncation rule holds as
      it stands. */
  lemma LimitedMeans(ps: seq<Piece>, r: Record, json: bool, env: Env, max: nat, marker: seq<byte>)
    ensures var line, out := LineOf(ps, r, json, env), Limited(ps, r, json, env, max, marker);
            && (|line| < max ==> out == line)
            && (|line| == max ==>
                  out == if AnyStops(ps, r, json, env, max) then Shortened(line, max, marker, NewlineBytes(env.crlf))
                         else line)
            && (|line| > max ==>
                  var qs := Slimmed(ps, r, json, env, max); var short := LineOf(qs, r, json, env);
                  && out == (if |short| > max || (|short| == max && AnyStops(qs, r, json, env, max))
                             then Shortened(short, max, marker, NewlineBytes(env.crlf)) else short)
                  && (qs == ps ==> out == Truncated(line, max, marker, NewlineBytes(env.crlf))))
            && (Plain(ps) ==> out == Truncated(line, max, marker, NewlineBytes(env.crlf)))
            && (|NewlineBytes(env.crlf)| <= max ==> |out| <= max)
  {
    hide LineOf, Content, Slimmed;
    if |LineOf(ps, r, json, env)| <= max || Plain(ps) { SlimmedIsSame(ps, r, json, env, max); }
  }
}
