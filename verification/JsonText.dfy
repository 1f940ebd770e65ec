/** JSON string escaping as the renderer and the http sink do it, the body of an ndjson POST,
    and an independent reader of JSON arrays of strings (sections 5 and 7 of RFC 8259) that
    gives the lines back. */
module JsonText {
  import opened Bytes
  import opened Options

  const QUOTE: byte := 0x22
  const BACKSLASH: byte := 0x5C
  const COMMA: byte := 0x2C
  const OPEN: byte := 0x5B
  const CLOSE: byte := 0x5D

  /** The lower-case hexadecimal digit of n. */
  function Hex(n: nat): byte
    requires n < 16
  {
    if n < 10 then 0x30 + n else 0x61 + n - 10
  }

  /** The letter of a short escape, as in \n, or 0. */
  function Short(c: byte): byte {
    if c == QUOTE then QUOTE
    else if c == BACKSLASH then BACKSLASH
    else if c == 8 then 0x62
    else if c == 12 then 0x66
    else if c == 10 then 0x6E
    else if c == 13 then 0x72
    else if c == 9 then 0x74
    else 0
  }

  function Escape(c: byte): seq<byte> {
    if Short(c) != 0 then [BACKSLASH, Short(c)]
    else if c < 0x20 then [BACKSLASH, 0x75, 0x30, 0x30, Hex(c / 16), Hex(c % 16)]
    else [c]
  }

  function Escaped(line: seq<byte>): seq<byte> {
    if line == [] then [] else Escape(line[0]) + Escaped(line[1..])
  }

  function Element(line: seq<byte>): seq<byte> { [QUOTE] + (Escaped(line) + [QUOTE]) }

  /** The elements of an array, separated by commas. */
  function Elements(lines: seq<seq<byte>>): seq<byte> {
    if lines == [] then []
    else if |lines| == 1 then Element(lines[0])
    else Elements(lines[..|lines| - 1]) + [COMMA] + Element(lines[|lines| - 1])
  }

  lemma ElementsAppend(lines: seq<seq<byte>>, line: seq<byte>)
    ensures Elements(lines + [line]) == if lines == [] then Element(line) else Elements(lines) + [COMMA] + Element(line)
  {
    assert (lines + [line])[..|lines|] == lines;
  }

  lemma {:induction false} EscapedAppend(line: seq<byte>, c: byte)
    ensures Escaped(line + [c]) == Escaped(line) + Escape(c)
  {
    hide Escape;
    if line == [] {
      assert (line + [c])[1..] == [];
    } else {
      EscapedAppend(line[1..], c);
      assert (line + [c])[1..] == line[1..] + [c];
    }
  }

  // ---------------------------------------------------------------- reading JSON

  function Digit(c: byte): Option<nat> {
    if 0x30 <= c <= 0x39 then Some(c - 0x30)
    else if 0x61 <= c <= 0x66 then Some(c - 0x61 + 10)
    else if 0x41 <= c <= 0x46 then Some(c - 0x41 + 10)
    else None
  }

  /** The byte a short escape letter stands for. */
  function Letter(c: byte): Option<byte> {
    if c == '"' as int then Some(c)
    else if c == '\\' as int then Some(c)
    else if c == '/' as int then Some(c)
    else if c == 'b' as int then Some(8)
    else if c == 'f' as int then Some(12)
    else if c == 'n' as int then Some(10)
    else if c == 'r' as int then Some(13)
    else if c == 't' as int then Some(9)
    else None
  }

  /** One character inside a string and how many bytes spell it; None at the closing quote,
      at a control character and at a malformed escape. A \u escape is read when it names a
      single byte. */
  function ReadChar(s: seq<byte>): Option<(byte, nat)> {
    if s == [] || s[0] == '"' as int || s[0] < 0x20 then None
    else if s[0] != '\\' as int then Some((s[0], 1))
    else if |s| < 2 then None
    else if s[1] != 'u' as int then
      match Letter(s[1])
      case None => None
      case Some(c) => Some((c, 2))
    else if |s| < 6 then None
    else
      match (Digit(s[2]), Digit(s[3]), Digit(s[4]), Digit(s[5]))
      case (Some(a), Some(b), Some(c), Some(d)) =>
        if a == 0 && b == 0 && c < 8 then Some((16 * c + d, 6)) else None
      case _ => None
  }

  lemma ReadCharAdvances(s: seq<byte>)
    ensures ReadChar(s).Some? ==> 1 <= ReadChar(s).value.1 <= |s|
  {
  }

  /** The characters up to the closing quote, and what follows it. */
  function ReadString(s: seq<byte>): Option<(seq<byte>, seq<byte>)>
    decreases |s|
  {
    ReadCharAdvances(s);
    if s != [] && s[0] == '"' as int then Some(([], s[1..]))
    else
      match ReadChar(s)
      case None => None
      case Some((c, n)) =>
        match ReadString(s[n..])
        case None => None
        case Some((text, rest)) => Some(([c] + text, rest))
  }

  lemma {:induction false} ReadStringAdvances(s: seq<byte>)
    ensures ReadString(s).Some? ==> |ReadString(s).value.1| < |s|
    decreases |s|
  {
    ReadCharAdvances(s);
    if !(s != [] && s[0] == '"' as int) && ReadChar(s).Some? {
      ReadStringAdvances(s[ReadChar(s).value.1..]);
    }
  }

  /** Strings separated by commas up to the closing bracket, nothing behind it. */
  function ReadElements(s: seq<byte>): Option<seq<seq<byte>>>
    decreases |s|
  {
    if s == [] || s[0] != '"' as int then None
    else
      ReadStringAdvances(s[1..]);
      match ReadString(s[1..])
      case None => None
      case Some((text, rest)) =>
        if rest == [']' as int] then Some([text])
        else if rest == [] || rest[0] != ',' as int then None
        else
          match ReadElements(rest[1..])
          case None => None
          case Some(more) => Some([text] + more)
  }

  /** A JSON array of strings. */
  function ReadArray(s: seq<byte>): Option<seq<seq<byte>>> {
    if s == [] || s[0] != '[' as int then None
    else if s == ['[' as int, ']' as int] then Some([])
    else ReadElements(s[1..])
  }

  // ---------------------------------------------------------------- round trip

  lemma HexReads(n: nat)
    requires n < 16
    ensures Digit(Hex(n)) == Some(n)
  {
  }

  lemma EscapeReads(c: byte, rest: seq<byte>, s: seq<byte>)
    requires s == Escape(c) + rest
    ensures ReadChar(s) == Some((c, |Escape(c)|)) && s[|Escape(c)|..] == rest && s != [] && s[0] != QUOTE
  {
    if Short(c) == 0 && c < 0x20 {
      HexReads(c / 16);
      HexReads(c % 16);
      HexReads(0);
    }
  }

  lemma {:induction false} StringReads(line: seq<byte>, rest: seq<byte>, s: seq<byte>)
    requires s == Escaped(line) + ([QUOTE] + rest)
    ensures ReadString(s) == Some((line, rest))
    decreases |line|
  {
    if line == [] {
      assert s == [QUOTE] + rest;
      assert s[1..] == rest;
    } else {
      hide Escape, ReadChar;
      var c, later := line[0], line[1..];
      var more := Escaped(later) + ([QUOTE] + rest);
      assert s == Escape(c) + more;
      EscapeReads(c, more, s);
      StringReads(later, rest, more);
      hide Escaped;
      assert [c] + later == line;
    }
  }

  lemma {:induction false} ElementsFront(lines: seq<seq<byte>>)
    requires |lines| > 1
    ensures Elements(lines) == Element(lines[0]) + ([COMMA] + Elements(lines[1..]))
  {
    hide Element;
    var n := |lines| - 1;
    if n > 1 {
      ElementsFront(lines[..n]);
      assert lines[..n][1..] == lines[1..][..n - 1];
      assert Elements(lines[1..]) == Elements(lines[1..][..n - 1]) + [COMMA] + Element(lines[n]);
      var a, b, c := Element(lines[0]), Elements(lines[1..][..n - 1]), Element(lines[n]);
      assert (a + ([COMMA] + b)) + [COMMA] + c == a + ([COMMA] + (b + [COMMA] + c));
    } else {
      assert lines[..1] == [lines[0]] && lines[1..] == [lines[1]];
      assert Element(lines[0]) + [COMMA] + Element(lines[1]) == Element(lines[0]) + ([COMMA] + Element(lines[1]));
    }
  }

  lemma ElementReads(line: seq<byte>, rest: seq<byte>, s: seq<byte>)
    requires s == Element(line) + rest
    ensures s != [] && s[0] == QUOTE && ReadString(s[1..]) == Some((line, rest))
  {
    hide Escaped;
    assert s[1..] == Escaped(line) + ([QUOTE] + rest);
    StringReads(line, rest, s[1..]);
  }

  lemma {:induction false} ElementsRead(lines: seq<seq<byte>>, s: seq<byte>)
    requires lines != [] && s == Elements(lines) + [CLOSE]
    ensures ReadElements(s) == Some(lines)
    decreases |lines|
  {
    hide ReadString, Element;
    var line := lines[0];
    if |lines| == 1 {
      ElementReads(line, [CLOSE], s);
      assert lines == [line];
    } else {
      ElementsFront(lines);
      var more := Elements(lines[1..]) + [CLOSE];
      ThreeParts(Element(line), Elements(lines[1..]));
      ElementReads(line, [COMMA] + more, s);
      ElementsRead(lines[1..], more);
      LongRest(more);
      assert [line] + lines[1..] == lines;
    }
  }

  lemma ThreeParts(a: seq<byte>, b: seq<byte>)
    ensures (a + ([COMMA] + b)) + [CLOSE] == a + ([COMMA] + (b + [CLOSE]))
  {
  }

  lemma LongRest(more: seq<byte>)
    requires ReadElements(more).Some?
    ensures [COMMA] + more != [CLOSE] && ([COMMA] + more)[0] == COMMA && ([COMMA] + more)[1..] == more
  {
  }

  /** The body of a POST is a JSON array of strings, equal to its lines in order. */
  lemma BodyReadsBack(lines: seq<seq<byte>>)
    requires lines != []
    ensures ReadArray([OPEN] + Elements(lines) + [CLOSE]) == Some(lines)
  {
    hide Elements, ReadElements;
    var e := Elements(lines);
    Inside(e);
    ElementsRead(lines, e + [CLOSE]);
    ElementsStart(lines);
  }

  lemma Inside(e: seq<byte>)
    ensures var s := [OPEN] + e + [CLOSE]; s[0] == OPEN && s[1..] == e + [CLOSE] && |s| == |e| + 2
  {
  }

  lemma ElementsStart(lines: seq<seq<byte>>)
    requires lines != []
    ensures |Elements(lines)| >= 2
  {
    if |lines| == 1 {} else { ElementsFront(lines); }
  }
}
