/** Format templates: the pieces a template means when read directly, and its compilation
    into an action sequence over a pool of literal bytes. */
module FormatTemplate {
  import opened Bytes
  import opened Options

  const PERCENT: byte := 0x25
  const MINUS: byte := 0x2D
  const DOT: byte := 0x2E
  const BRACE: byte := 0x7D
  const MOD_LIMIT: nat := 128
  const MAX_FMT: nat := 256

  datatype Kind = Literal | Level | Time | Pid | Tid | File | LineNumber | Func | Text | Category | Newline | FieldList
                | TimeUtc

  /** A width and precision modifier; NO_MOD for a plain placeholder. */
  datatype Mod = Mod(left: bool, width: nat, hasPrec: bool, prec: nat)

  const NO_MOD := Mod(false, 0, false, 0)

  // ---------------------------------------------------------------- placeholders

  predicate IsDigit(c: byte) { 0x30 <= c <= 0x39 }

  /** The decimal number at `i` continuing `acc`, and where it ends. */
  function Number(t: seq<byte>, i: nat, acc: nat): (r: (nat, nat))
    requires i <= |t|
    ensures i <= r.1 <= |t| && acc <= r.0
    decreases |t| - i
  {
    if i < |t| && IsDigit(t[i]) then Number(t, i + 1, acc * 10 + (t[i] - 0x30)) else (acc, i)
  }

  /** The modifier %[-][width][.prec] at `i`, and where it ends. */
  function ModAt(t: seq<byte>, i: nat): (r: (Mod, nat))
    requires i <= |t|
    ensures i <= r.1 <= |t|
  {
    var left := i < |t| && t[i] == MINUS;
    var (width, a) := Number(t, if left then i + 1 else i, 0);
    if a < |t| && t[a] == DOT then
      var (prec, b) := Number(t, a + 1, 0);
      (Mod(left, width, true, prec), b)
    else (Mod(left, width, false, 0), a)
  }

  predicate NameAt(t: seq<byte>, i: nat, name: string) {
    i + |name| <= |t| && forall k | 0 <= k < |name| :: t[i + k] == name[k] as int
  }

  /** The long placeholder names, in the order they are tried. */
  function LongName(t: seq<byte>, i: nat): Option<(Kind, nat)> {
    if NameAt(t, i, "level") then Some((Level, 5))
    else if NameAt(t, i, "time") then Some((Time, 4))
    else if NameAt(t, i, "pid") then Some((Pid, 3))
    else if NameAt(t, i, "tid") then Some((Tid, 3))
    else if NameAt(t, i, "file") then Some((File, 4))
    else if NameAt(t, i, "line") then Some((LineNumber, 4))
    else if NameAt(t, i, "func") then Some((Func, 4))
    else if NameAt(t, i, "msg") then Some((Text, 3))
    else if NameAt(t, i, "category") then Some((Category, 8))
    else if NameAt(t, i, "n") then Some((Newline, 1))
    else None
  }

  function ShortName(c: byte): Option<Kind> {
    if c == 'l' as int then Some(Level)
    else if c == 't' as int then Some(Time)
    else if c == 'g' as int then Some(TimeUtc)
    else if c == 'p' as int then Some(Pid)
    else if c == 'i' as int then Some(Tid)
    else if c == 'f' as int then Some(File)
    else if c == 'n' as int then Some(Newline)
    else if c == 'c' as int then Some(Category)
    else if c == 'm' as int then Some(Text)
    else if c == 'v' as int then Some(FieldList)
    else None
  }

  /** The placeholder name at `i`: a long one if one matches, else a single letter. */
  function NameOf(t: seq<byte>, i: nat): (r: Option<(Kind, nat)>)
    ensures r.Some? ==> r.value.1 > 0 && i + r.value.1 <= |t| && r.value.0 != Literal
  {
    match LongName(t, i)
    case Some(k) => Some(k)
    case None =>
      if i < |t| && t[i] != PERCENT then
        match ShortName(t[i])
        case Some(k) => Some((k, 1))
        case None => None
      else None
  }

  predicate ModSupported(k: Kind) {
    k == Level || k == Time || k == TimeUtc || k == Pid || k == Tid || k == File || k == LineNumber || k == Func
    || k == Text || k == Category
  }

  predicate Overflows(m: Mod) { m.width > MOD_LIMIT || m.prec > MOD_LIMIT }

  /** What follows a '%' at `i`: a placeholder, a literal "%%", or nothing legal. */
  datatype Percent = Placeholder(kind: Kind, mod: Mod, len: nat) | DoublePercent | Illegal

  function PercentAt(t: seq<byte>, i: nat): (r: Percent)
    requires i < |t| && t[i] == PERCENT
    ensures r.Placeholder? ==> 0 < r.len && i + r.len <= |t| && r.kind != Literal
    ensures r.DoublePercent? ==> i + 2 <= |t|
  {
    var (m, body) := ModAt(t, i + 1);
    var plain := body == i + 1;
    match NameOf(t, body)
    case Some((k, n)) =>
      if !plain && (!ModSupported(k) || Overflows(m)) then Illegal
      else Placeholder(k, if plain then NO_MOD else m, body + n - i)
    case None => if plain && body < |t| && t[body] == PERCENT then DoublePercent else Illegal
  }

  // ---------------------------------------------------------------- reading directly

  /** A byte of the line, or a value to render. */
  datatype Piece = Byte(b: byte) | Value(kind: Kind, mod: Mod)

  /** Reading the template from `i` on, byte by byte; None for an illegal placeholder. "%%"
      stands for itself: two bytes. */
  function Read(t: seq<byte>, i: nat): Option<seq<Piece>>
    requires i <= |t|
    decreases |t| - i
  {
    if i == |t| then Some([])
    else if t[i] != PERCENT then
      match Read(t, i + 1)
      case None => None
      case Some(ps) => Some([Byte(t[i])] + ps)
    else
      match PercentAt(t, i)
      case Illegal => None
      case DoublePercent =>
        (match Read(t, i + 2)
         case None => None
         case Some(ps) => Some([Byte(PERCENT), Byte(PERCENT)] + ps))
      case Placeholder(k, m, n) =>
        match Read(t, i + n)
        case None => None
        case Some(ps) => Some([Value(k, m)] + ps)
  }

  /** A text without '%' reads as itself. */
  lemma {:induction false} LiteralReads(lit: seq<byte>, rest: seq<byte>, i: nat)
    requires i <= |lit| && PERCENT !in lit
    ensures Read(lit + rest, i) == match Read(lit + rest, |lit|)
                                   case None => None
                                   case Some(ps) => Some(ByteSeq(lit[i..]) + ps)
    decreases |lit| - i
  {
    hide PercentAt;
    if i == |lit| {
      var ps := Read(lit + rest, i);
      if ps.Some? { assert ByteSeq(lit[i..]) + ps.value == ps.value; }
    } else {
      LiteralReads(lit, rest, i + 1);
      assert lit[i] in lit && lit[i..] == [lit[i]] + lit[i + 1..] && lit[i..][1..] == lit[i + 1..];
      if Read(lit + rest, |lit|).Some? {
        var ps := Read(lit + rest, |lit|).value;
        assert [Byte(lit[i])] + (ByteSeq(lit[i + 1..]) + ps) == ([Byte(lit[i])] + ByteSeq(lit[i + 1..])) + ps;
      }
    }
  }

  // ---------------------------------------------------------------- compiled form

  /** A compiled action; literals name a range of the pool. */
  datatype Action = Action(kind: Kind, mod: Mod, off: nat, len: nat)

  datatype Format = Format(isJson: bool, actions: seq<Action>, pool: seq<byte>)

  predicate ActionOk(a: Action, pool: seq<byte>) { a.kind == Literal ==> a.off + a.len <= |pool| }

  function ByteSeq(bs: seq<byte>): seq<Piece> {
    if bs == [] then [] else [Byte(bs[0])] + ByteSeq(bs[1..])
  }

  function ActionPieces(a: Action, pool: seq<byte>): seq<Piece>
    requires ActionOk(a, pool)
  {
    if a.kind == Literal then ByteSeq(pool[a.off..a.off + a.len]) else [Value(a.kind, a.mod)]
  }

  predicate ActionsOk(actions: seq<Action>, pool: seq<byte>) { forall a | a in actions :: ActionOk(a, pool) }

  /** What an action sequence means. */
  function Expand(actions: seq<Action>, pool: seq<byte>): seq<Piece>
    requires ActionsOk(actions, pool)
  {
    if actions == [] then []
    else
      var n := |actions| - 1;
      assert actions[n] in actions;
      Expand(actions[..n], pool) + ActionPieces(actions[n], pool)
  }

  lemma {:induction false} ByteSeqConcat(a: seq<byte>, b: seq<byte>)
    ensures ByteSeq(a + b) == ByteSeq(a) + ByteSeq(b) && |ByteSeq(a)| == |a|
  {
    if a == [] {
      assert a + b == b;
    } else {
      ByteSeqConcat(a[1..], b);
      assert (a + b)[1..] == a[1..] + b;
    }
  }

  lemma {:induction false} ExpandGrow(actions: seq<Action>, pool: seq<byte>, more: seq<byte>)
    requires ActionsOk(actions, pool)
    ensures ActionsOk(actions, pool + more) && Expand(actions, pool + more) == Expand(actions, pool)
  {
    hide ByteSeq;
    if actions != [] {
      var n := |actions| - 1;
      var a := actions[n];
      ExpandGrow(actions[..n], pool, more);
      assert ActionOk(a, pool);
      if a.kind == Literal { assert (pool + more)[a.off..a.off + a.len] == pool[a.off..a.off + a.len]; }
    }
  }

  lemma ExpandAppend(actions: seq<Action>, pool: seq<byte>, a: Action)
    requires ActionsOk(actions, pool) && ActionOk(a, pool)
    ensures ActionsOk(actions + [a], pool)
    ensures Expand(actions + [a], pool) == Expand(actions, pool) + ActionPieces(a, pool)
  {
    assert (actions + [a])[..|actions|] == actions;
  }

  /** The pending literal joins the pool as its own action. */
  lemma LiteralJoins(actions: seq<Action>, pool: seq<byte>, bs: seq<byte>)
    requires ActionsOk(actions, pool)
    ensures var a := Action(Literal, NO_MOD, |pool|, |bs|);
            ActionsOk(actions + [a], pool + bs)
            && Expand(actions + [a], pool + bs) == Expand(actions, pool) + ByteSeq(bs)
  {
    ExpandGrow(actions, pool, bs);
    var a := Action(Literal, NO_MOD, |pool|, |bs|);
    assert (pool + bs)[a.off..a.off + a.len] == bs;
    ExpandAppend(actions, pool + bs, a);
  }

  // ---------------------------------------------------------------- compiling

  datatype Status = Ok | ConfigError | NoMemory

  method ParseNumber(t: seq<byte>, i: nat) returns (v: nat, over: bool, q: nat)
    requires i <= |t|
    ensures (v, q) == Number(t, i, 0) && over == (v > MOD_LIMIT)
  {
    v, over, q := 0, false, i;
    while q < |t| && IsDigit(t[q])
      invariant i <= q <= |t| && Number(t, i, 0) == Number(t, q, v) && over == (v > MOD_LIMIT)
    {
      v := v * 10 + (t[q] - 0x30);
      if v > MOD_LIMIT {
        over := true;
      }
      q := q + 1;
    }
  }

  /** parse_modifier. */
  method ParseModifier(t: seq<byte>, i: nat) returns (m: Mod, over: bool, q: nat)
    requires i <= |t|
    ensures (m, q) == ModAt(t, i) && over == Overflows(m)
  {
    q := i;
    var left := false;
    if q < |t| && t[q] == MINUS {
      left := true;
      q := q + 1;
    }
    var width, prec, more;
    width, over, q := ParseNumber(t, q);
    m := Mod(left, width, false, 0);
    if q < |t| && t[q] == DOT {
      prec, more, q := ParseNumber(t, q + 1);
      m, over := Mod(left, width, true, prec), over || more;
    }
  }

  /** What is compiled so far, with the literal that is still pending, means what was read. */
  ghost predicate Compiled(t: seq<byte>, actions: seq<Action>, pool: seq<byte>, lit: nat, p: nat) {
    && lit <= p <= |t| && ActionsOk(actions, pool)
    && Read(t, 0) ==
       match Read(t, p)
       case None => None
       case Some(rest) => Some(Expand(actions, pool) + ByteSeq(t[lit..p]) + rest)
  }

  lemma CompiledStarts(t: seq<byte>)
    ensures Compiled(t, [], [], 0, 0)
  {
    assert t[0..0] == [] && Expand([], []) == [];
    if Read(t, 0).Some? { assert [] + [] + Read(t, 0).value == Read(t, 0).value; }
  }

  /** Plain bytes and "%%" extend the pending literal. */
  lemma CompiledByte(t: seq<byte>, actions: seq<Action>, pool: seq<byte>, lit: nat, p: nat, n: nat)
    requires Compiled(t, actions, pool, lit, p) && p < |t|
    requires if t[p] == PERCENT then PercentAt(t, p).DoublePercent? && n == 2 else n == 1
    ensures Compiled(t, actions, pool, lit, p + n)
  {
    if n == 2 { SecondPercent(t, p); }
    assert t[lit..p + n] == t[lit..p] + t[p..p + n];
    ByteSeqConcat(t[lit..p], t[p..p + n]);
    var here := ByteSeq(t[p..p + n]);
    if n == 1 { assert t[p..p + 1] == [t[p]] && here == [Byte(t[p])]; }
    else { TwoBytes(t[p..p + 2]); }
    hide ByteSeq, Expand, ActionsOk, PercentAt;
    var e, l := Expand(actions, pool), ByteSeq(t[lit..p]);
    if Read(t, p + n).Some? {
      var rest := Read(t, p + n).value;
      assert e + l + (here + rest) == e + (l + here) + rest;
    }
  }

  lemma SecondPercent(t: seq<byte>, p: nat)
    requires p < |t| && t[p] == PERCENT && PercentAt(t, p).DoublePercent?
    ensures p + 2 <= |t| && t[p + 1] == PERCENT
  {
  }

  lemma TwoBytes(bs: seq<byte>)
    requires |bs| == 2
    ensures ByteSeq(bs) == [Byte(bs[0]), Byte(bs[1])]
  {
    assert bs[1..] == [bs[1]] && bs[1..][1..] == [];
    assert ByteSeq([bs[1]]) == [Byte(bs[1])];
  }

  /** A placeholder closes the literal and becomes an action. */
  lemma CompiledValue(t: seq<byte>, actions: seq<Action>, pool: seq<byte>, p: nat)
    requires Compiled(t, actions, pool, p, p) && p < |t| && t[p] == PERCENT && PercentAt(t, p).Placeholder?
    ensures var x := PercentAt(t, p);
            Compiled(t, actions + [Action(x.kind, x.mod, 0, 0)], pool, p + x.len, p + x.len)
  {
    hide Expand, ActionsOk, PercentAt;
    var x := PercentAt(t, p);
    var a := Action(x.kind, x.mod, 0, 0);
    ExpandAppend(actions, pool, a);
    assert t[p..p] == [] && t[p + x.len..p + x.len] == [];
    ReadValue(t, p);
    hide Read;
    if Read(t, p + x.len).Some? {
      Appends(Expand(actions, pool), Value(x.kind, x.mod), Read(t, p + x.len).value);
    }
  }

  lemma Appends(e: seq<Piece>, v: Piece, rest: seq<Piece>)
    ensures e + ByteSeq([]) + ([v] + rest) == (e + [v]) + ByteSeq([]) + rest
  {
  }

  lemma ReadValue(t: seq<byte>, p: nat)
    requires p < |t| && t[p] == PERCENT && PercentAt(t, p).Placeholder?
    ensures var x := PercentAt(t, p);
            Read(t, p) == match Read(t, p + x.len)
                          case None => None
                          case Some(ps) => Some([Value(x.kind, x.mod)] + ps)
  {
    hide PercentAt;
  }

  lemma CompiledLiteral(t: seq<byte>, actions: seq<Action>, pool: seq<byte>, lit: nat, p: nat)
    requires Compiled(t, actions, pool, lit, p)
    ensures Compiled(t, actions + [Action(Literal, NO_MOD, |pool|, p - lit)], pool + t[lit..p], p, p)
  {
    LiteralJoins(actions, pool, t[lit..p]);
    assert t[p..p] == [];
    hide Expand, ActionsOk;
    if Read(t, p).Some? {
      var rest := Read(t, p).value;
      var e, l := Expand(actions, pool), ByteSeq(t[lit..p]);
      assert e + l + rest == (e + l) + [] + rest;
    }
  }

  /** Literals are separated by values. */
  predicate Separated(actions: seq<Action>) {
    forall i | 0 <= i < |actions| - 1 :: actions[i].kind != Literal || actions[i + 1].kind != Literal
  }

  lemma SeparatedEmpty()
    ensures Separated([])
  {
  }

  lemma SeparatedGrows(actions: seq<Action>, a: Action)
    requires Separated(actions)
    requires a.kind != Literal || (actions != [] ==> actions[|actions| - 1].kind != Literal)
    ensures Separated(actions + [a])
  {
  }

  /** The scan of hpu_format_compile, before the json splice. */
  method Scan(t: seq<byte>) returns (status: Status, actions: seq<Action>, pool: seq<byte>)
    ensures status != NoMemory && (status == Ok <==> Read(t, 0).Some?)
    ensures status == Ok ==> ActionsOk(actions, pool) && Read(t, 0) == Some(Expand(actions, pool))
    ensures status == Ok ==> Separated(actions)
  {
    hide Compiled, Read, Expand, ActionsOk, Separated, NameOf, ModAt, Overflows, ModSupported;
    actions, pool := [], [];
    assert Separated(actions) by { SeparatedEmpty(); }
    var p: nat, lit: nat := 0, 0;
    CompiledStarts(t);
    while p < |t|
      invariant lit <= p <= |t| && Compiled(t, actions, pool, lit, p)
      invariant Separated(actions) && (actions != [] ==> actions[|actions| - 1].kind != Literal)
      decreases |t| - p
    {
      if t[p] == PERCENT {
        var m, over, body := ParseModifier(t, p + 1);
        var name := NameOf(t, body);
        var plain := body == p + 1;
        if name.None? && plain && body < |t| && t[body] == PERCENT {
          CompiledByte(t, actions, pool, lit, p, 2);
          p := p + 2;
          continue;
        }
        if name.None? || (!plain && (!ModSupported(name.value.0) || over)) {
          IllegalStops(t, actions, pool, lit, p);
          return ConfigError, [], [];
        }
        if p > lit {
          CompiledLiteral(t, actions, pool, lit, p);
          SeparatedGrows(actions, Action(Literal, NO_MOD, |pool|, p - lit));
          actions := actions + [Action(Literal, NO_MOD, |pool|, p - lit)];
          pool := pool + t[lit..p];
          lit := p;
        }
        CompiledValue(t, actions, pool, p);
        SeparatedGrows(actions, Action(name.value.0, if plain then NO_MOD else m, 0, 0));
        actions := actions + [Action(name.value.0, if plain then NO_MOD else m, 0, 0)];
        p := body + name.value.1;
        lit := p;
        continue;
      }
      CompiledByte(t, actions, pool, lit, p, 1);
      p := p + 1;
    }
    if p > lit {
      CompiledLiteral(t, actions, pool, lit, p);
      SeparatedGrows(actions, Action(Literal, NO_MOD, |pool|, p - lit));
      actions := actions + [Action(Literal, NO_MOD, |pool|, p - lit)];
      pool := pool + t[lit..p];
      lit := p;
    }
    CompiledEnds(t, actions, pool, p);
    status := Ok;
  }

  lemma IllegalStops(t: seq<byte>, actions: seq<Action>, pool: seq<byte>, lit: nat, p: nat)
    requires Compiled(t, actions, pool, lit, p) && p < |t| && t[p] == PERCENT && PercentAt(t, p).Illegal?
    ensures Read(t, 0).None?
  {
  }

  lemma CompiledEnds(t: seq<byte>, actions: seq<Action>, pool: seq<byte>, p: nat)
    requires Compiled(t, actions, pool, p, p) && p == |t|
    ensures ActionsOk(actions, pool) && Read(t, 0) == Some(Expand(actions, pool))
  {
    assert t[p..p] == [];
    assert Expand(actions, pool) + [] + [] == Expand(actions, pool);
  }

  // ---------------------------------------------------------------- the json splice

  /** The pieces with the field list put in front of the last literal '}'. */
  function InsertFields(ps: seq<Piece>): seq<Piece> {
    if ps == [] then []
    else
      var n := |ps| - 1;
      if ps[n] == Byte(BRACE) then ps[..n] + [Value(FieldList, NO_MOD), ps[n]]
      else InsertFields(ps[..n]) + [ps[n]]
  }

  predicate NoBrace(ps: seq<Piece>) { forall x | 0 <= x < |ps| :: ps[x] != Byte(BRACE) }

  lemma {:induction false} NoInsertion(ps: seq<Piece>)
    requires NoBrace(ps)
    ensures InsertFields(ps) == ps
  {
    if ps != [] {
      NoInsertion(ps[..|ps| - 1]);
      assert ps[..|ps| - 1] + [ps[|ps| - 1]] == ps;
    }
  }

  lemma {:induction false} InsertedAt(a: seq<Piece>, b: seq<Piece>)
    requires NoBrace(b)
    ensures InsertFields(a + [Byte(BRACE)] + b) == a + [Value(FieldList, NO_MOD), Byte(BRACE)] + b
    decreases |b|
  {
    var ps := a + [Byte(BRACE)] + b;
    if b == [] {
      assert ps[..|ps| - 1] == a;
    } else {
      var m := |b| - 1;
      assert ps[..|ps| - 1] == a + [Byte(BRACE)] + b[..m] && ps[|ps| - 1] == b[m];
      InsertedAt(a, b[..m]);
      assert b[..m] + [b[m]] == b;
    }
  }

  /** A literal without a brace has no piece of a brace. */
  lemma {:induction false} ByteSeqBrace(bs: seq<byte>)
    requires BRACE !in bs
    ensures NoBrace(ByteSeq(bs))
  {
    if bs != [] { ByteSeqBrace(bs[1..]); }
  }

  /** The actions behind index i have no literal brace. */
  ghost predicate Behind(actions: seq<Action>, pool: seq<byte>, i: nat) {
    && i <= |actions| && ActionsOk(actions, pool)
    && forall j | i <= j < |actions| && actions[j].kind == Literal ::
         ActionOk(actions[j], pool) && BRACE !in pool[actions[j].off..actions[j].off + actions[j].len]
  }

  lemma {:induction false} ExpandSplit(actions: seq<Action>, pool: seq<byte>, i: nat)
    requires ActionsOk(actions, pool) && i <= |actions|
    ensures ActionsOk(actions[..i], pool) && ActionsOk(actions[i..], pool)
    ensures Expand(actions, pool) == Expand(actions[..i], pool) + Expand(actions[i..], pool)
    decreases |actions|
  {
    hide ActionPieces;
    if i == |actions| {
      assert actions[..i] == actions && actions[i..] == [];
    } else {
      var n := |actions| - 1;
      ExpandSplit(actions[..n], pool, i);
      assert actions[..n][..i] == actions[..i] && actions[..n][i..] == actions[i..][..n - i];
      assert actions[i..][n - i] == actions[n];
    }
  }

  lemma {:induction false} BehindHasNoBrace(actions: seq<Action>, pool: seq<byte>)
    requires Behind(actions, pool, 0)
    ensures NoBrace(Expand(actions, pool))
  {
    hide ByteSeq;
    if actions != [] {
      var n := |actions| - 1;
      BehindHasNoBrace(actions[..n], pool);
      var a := actions[n];
      if a.kind == Literal { ByteSeqBrace(pool[a.off..a.off + a.len]); }
    }
  }

  /** The three actions the splice puts in place of literal i. */
  function Spliced(actions: seq<Action>, pool: seq<byte>, i: nat, k: nat): seq<Action>
    requires i < |actions| && k <= actions[i].len
  {
    actions[..i]
    + [actions[i].(len := k), Action(FieldList, NO_MOD, 0, 0), Action(Literal, NO_MOD, |pool|, actions[i].len - k)]
    + actions[i + 1..]
  }

  /** `k` is the last brace of literal `i`, and no later literal has one. */
  ghost predicate LastBrace(actions: seq<Action>, pool: seq<byte>, i: nat, k: nat) {
    && i < |actions| && Behind(actions, pool, i + 1) && actions[i].kind == Literal && ActionOk(actions[i], pool)
    && k < actions[i].len && pool[actions[i].off + k] == BRACE
    && BRACE !in pool[actions[i].off + k + 1..actions[i].off + actions[i].len]
  }

  lemma SplitLiteral(pool: seq<byte>, off: nat, len: nat, k: nat)
    requires off + len <= |pool| && k < len && pool[off + k] == BRACE
    ensures ByteSeq(pool[off..off + len])
            == ByteSeq(pool[off..off + k]) + ([Byte(BRACE)] + ByteSeq(pool[off + k + 1..off + len]))
    ensures ByteSeq(pool[off + k..off + len]) == [Byte(BRACE)] + ByteSeq(pool[off + k + 1..off + len])
  {
    var suffix := pool[off + k..off + len];
    assert pool[off..off + len] == pool[off..off + k] + suffix;
    ByteSeqConcat(pool[off..off + k], suffix);
    assert suffix[1..] == pool[off + k + 1..off + len];
  }

  lemma OldMeaning(actions: seq<Action>, pool: seq<byte>, i: nat, k: nat)
    requires LastBrace(actions, pool, i, k)
    ensures ActionsOk(actions, pool) && ActionsOk(actions[..i], pool) && ActionsOk(actions[i + 1..], pool)
    ensures var a := actions[i];
            Expand(actions, pool)
            == Expand(actions[..i], pool)
               + (ByteSeq(pool[a.off..a.off + k]) + ([Byte(BRACE)] + ByteSeq(pool[a.off + k + 1..a.off + a.len])))
               + Expand(actions[i + 1..], pool)
  {
    hide ByteSeq, Expand, ActionPieces;
    LiteralPieces(actions[i], pool, k);
    MiddleOf(actions, pool, i);
  }

  /** The splice inserts the field list in front of the template's last literal brace. */
  lemma SpliceInserts(actions: seq<Action>, pool: seq<byte>, i: nat, k: nat)
    requires LastBrace(actions, pool, i, k)
    ensures var a := actions[i]; var suffix := pool[a.off + k..a.off + a.len];
            ActionsOk(Spliced(actions, pool, i, k), pool + suffix) && ActionsOk(actions, pool)
            && Expand(Spliced(actions, pool, i, k), pool + suffix) == InsertFields(Expand(actions, pool))
  {
    hide Expand, ByteSeq, InsertFields, NoBrace, ActionsOk;
    var a := actions[i];
    var front, back := actions[..i], actions[i + 1..];
    BackHasNoBrace(actions, pool, i);
    OldMeaning(actions, pool, i, k);
    NewMeaning(front, back, a, pool, k);
    ByteSeqBrace(pool[a.off + k + 1..a.off + a.len]);
    Inserted(Expand(front, pool), ByteSeq(pool[a.off..a.off + k]), ByteSeq(pool[a.off + k + 1..a.off + a.len]),
             Expand(back, pool));
  }

  lemma Inserted(e: seq<Piece>, lit: seq<Piece>, tail: seq<Piece>, b: seq<Piece>)
    requires NoBrace(tail) && NoBrace(b)
    ensures InsertFields(e + (lit + ([Byte(BRACE)] + tail)) + b)
            == e + (lit + [Value(FieldList, NO_MOD)] + ([Byte(BRACE)] + tail)) + b
  {
    InsertedAt(e + lit, tail + b);
    Reassociate(e, lit, tail, b);
  }

  lemma Reassociate(e: seq<Piece>, lit: seq<Piece>, tail: seq<Piece>, b: seq<Piece>)
    ensures e + (lit + ([Byte(BRACE)] + tail)) + b == e + lit + [Byte(BRACE)] + (tail + b)
    ensures e + (lit + [Value(FieldList, NO_MOD)] + ([Byte(BRACE)] + tail)) + b
            == e + lit + [Value(FieldList, NO_MOD), Byte(BRACE)] + (tail + b)
  {
  }

  lemma BackHasNoBrace(actions: seq<Action>, pool: seq<byte>, i: nat)
    requires i < |actions| && Behind(actions, pool, i + 1)
    ensures ActionsOk(actions[i + 1..], pool) && NoBrace(Expand(actions[i + 1..], pool))
  {
    var back := actions[i + 1..];
    assert Behind(back, pool, 0) by {
      forall j | 0 <= j < |back| ensures back[j] == actions[i + 1 + j] {}
    }
    BehindHasNoBrace(back, pool);
  }

  lemma LiteralPieces(a: Action, pool: seq<byte>, k: nat)
    requires a.kind == Literal && ActionOk(a, pool) && k < a.len && pool[a.off + k] == BRACE
    ensures ActionPieces(a, pool) == ByteSeq(pool[a.off..a.off + k])
                                     + ([Byte(BRACE)] + ByteSeq(pool[a.off + k + 1..a.off + a.len]))
  {
    SplitLiteral(pool, a.off, a.len, k);
  }

  lemma ExpandUpto(actions: seq<Action>, pool: seq<byte>, i: nat)
    requires ActionsOk(actions, pool) && i < |actions|
    ensures ActionOk(actions[i], pool) && ActionsOk(actions[..i], pool) && ActionsOk(actions[..i + 1], pool)
    ensures Expand(actions[..i + 1], pool) == Expand(actions[..i], pool) + ActionPieces(actions[i], pool)
  {
    hide ActionOk, ActionPieces;
    assert actions[..i + 1][..i] == actions[..i];
  }

  lemma MiddleOf(actions: seq<Action>, pool: seq<byte>, i: nat)
    requires ActionsOk(actions, pool) && i < |actions|
    ensures ActionOk(actions[i], pool) && ActionsOk(actions[..i], pool) && ActionsOk(actions[i + 1..], pool)
    ensures Expand(actions, pool)
            == Expand(actions[..i], pool) + ActionPieces(actions[i], pool) + Expand(actions[i + 1..], pool)
  {
    hide Expand, ActionPieces, ActionOk, ActionsOk;
    ExpandSplit(actions, pool, i + 1);
    ExpandUpto(actions, pool, i);
  }

  lemma ExpandConcat(a: seq<Action>, b: seq<Action>, pool: seq<byte>)
    requires ActionsOk(a, pool) && ActionsOk(b, pool)
    ensures ActionsOk(a + b, pool) && Expand(a + b, pool) == Expand(a, pool) + Expand(b, pool)
  {
    assert (a + b)[..|a|] == a && (a + b)[|a|..] == b;
    assert ActionsOk(a + b, pool);
    hide Expand, ActionOk, ActionsOk;
    ExpandSplit(a + b, pool, |a|);
  }

  lemma NewPieces(pool: seq<byte>, a: Action, k: nat)
    requires a.kind == Literal && ActionOk(a, pool) && k < a.len && pool[a.off + k] == BRACE
    ensures var pool' := pool + pool[a.off + k..a.off + a.len];
            var x, z := a.(len := k), Action(Literal, NO_MOD, |pool|, a.len - k);
            && ActionOk(x, pool') && ActionPieces(x, pool') == ByteSeq(pool[a.off..a.off + k])
            && ActionOk(z, pool')
            && ActionPieces(z, pool') == [Byte(BRACE)] + ByteSeq(pool[a.off + k + 1..a.off + a.len])
  {
    hide ByteSeq;
    SplitLiteral(pool, a.off, a.len, k);
    var pool' := pool + pool[a.off + k..a.off + a.len];
    assert pool'[a.off..a.off + k] == pool[a.off..a.off + k];
    assert pool'[|pool|..|pool| + (a.len - k)] == pool[a.off + k..a.off + a.len];
  }

  lemma NewMeaning(front: seq<Action>, back: seq<Action>, a: Action, pool: seq<byte>, k: nat)
    requires ActionsOk(front, pool) && ActionsOk(back, pool)
    requires a.kind == Literal && ActionOk(a, pool) && k < a.len && pool[a.off + k] == BRACE
    ensures var suffix := pool[a.off + k..a.off + a.len];
            var spliced := front + [a.(len := k), Action(FieldList, NO_MOD, 0, 0),
                                    Action(Literal, NO_MOD, |pool|, a.len - k)] + back;
            ActionsOk(spliced, pool + suffix)
            && Expand(spliced, pool + suffix)
               == Expand(front, pool)
                  + (ByteSeq(pool[a.off..a.off + k]) + [Value(FieldList, NO_MOD)]
                     + ([Byte(BRACE)] + ByteSeq(pool[a.off + k + 1..a.off + a.len])))
                  + Expand(back, pool)
  {
    var suffix := pool[a.off + k..a.off + a.len];
    NewPieces(pool, a, k);
    hide ByteSeq, Expand, ActionPieces;
    ExpandGrow(front, pool, suffix);
    ExpandGrow(back, pool, suffix);
    var x, y, z := a.(len := k), Action(FieldList, NO_MOD, 0, 0), Action(Literal, NO_MOD, |pool|, a.len - k);
    ThreeActions(front, x, y, z, back, pool + suffix, ByteSeq(pool[a.off..a.off + k]),
                 [Byte(BRACE)] + ByteSeq(pool[a.off + k + 1..a.off + a.len]));
  }

  lemma ThreeActions(front: seq<Action>, x: Action, y: Action, z: Action, back: seq<Action>, pool: seq<byte>,
                     lit: seq<Piece>, rest: seq<Piece>)
    requires ActionsOk(front, pool) && ActionsOk(back, pool)
    requires ActionOk(x, pool) && ActionOk(y, pool) && ActionOk(z, pool)
    requires ActionPieces(x, pool) == lit && y.kind != Literal && ActionPieces(z, pool) == rest
    ensures ActionsOk(front + [x, y, z] + back, pool)
    ensures Expand(front + [x, y, z] + back, pool)
            == Expand(front, pool) + (lit + [Value(y.kind, y.mod)] + rest) + Expand(back, pool)
  {
    assert ActionPieces(y, pool) == [Value(y.kind, y.mod)];
    hide ByteSeq, Expand, ActionPieces, ActionOk, ActionsOk;
    ExpandAppend(front, pool, x);
    ExpandAppend(front + [x], pool, y);
    ExpandAppend((front + [x]) + [y], pool, z);
    ExpandConcat(((front + [x]) + [y]) + [z], back, pool);
    assert front + [x, y, z] == ((front + [x]) + [y]) + [z];
    Flatten(Expand(front, pool), lit, [Value(y.kind, y.mod)], rest);
  }

  lemma Flatten(e: seq<Piece>, a: seq<Piece>, b: seq<Piece>, c: seq<Piece>)
    ensures ((e + a) + b) + c == e + (a + b + c)
  {
  }

  /** The bytes at the front of `ps`, up to the first value. */
  function LeadingBytes(ps: seq<Piece>): nat {
    if ps == [] || ps[0].Value? then 0 else 1 + LeadingBytes(ps[1..])
  }

  predicate LastBraceAt(ps: seq<Piece>, j: nat)
    requires j < |ps|
  {
    ps[j] == Byte(BRACE) && NoBrace(ps[j + 1..])
  }

  /** From the last literal '}' to the next value there are more bytes than the splice moves. */
  predicate LongTail(ps: seq<Piece>) {
    exists j | 0 <= j < |ps| :: LastBraceAt(ps, j) && LeadingBytes(ps[j..]) > MAX_FMT
  }

  lemma {:induction false} LeadingByteSeq(bs: seq<byte>, rest: seq<Piece>)
    ensures LeadingBytes(ByteSeq(bs) + rest) == |bs| + LeadingBytes(rest)
  {
    if bs == [] {
      assert ByteSeq(bs) + rest == rest;
    } else {
      LeadingByteSeq(bs[1..], rest);
      var more := ByteSeq(bs[1..]) + rest;
      assert ByteSeq(bs) + rest == [Byte(bs[0])] + more;
      hide ByteSeq;
      assert ([Byte(bs[0])] + more)[1..] == more;
    }
  }

  lemma StartsWithValue(actions: seq<Action>, pool: seq<byte>)
    requires ActionsOk(actions, pool) && (actions == [] || actions[0].kind != Literal)
    ensures LeadingBytes(Expand(actions, pool)) == 0
  {
    if actions != [] {
      ExpandSplit(actions, pool, 1);
      assert actions[..1] == [actions[0]] && [actions[0]][..0] == [];
    }
  }

  /** There is at most one last brace. */
  lemma OneLastBrace(ps: seq<Piece>, i: nat, j: nat)
    requires i < |ps| && j < |ps| && i != j && LastBraceAt(ps, j)
    ensures !LastBraceAt(ps, i)
  {
    if i < j { assert ps[i + 1..][j - i - 1] == ps[j]; }
    else { assert ps[j + 1..][i - j - 1] == ps[i]; }
  }

  /** The length the splice tests is that of the template's own tail. */
  lemma TailIs(actions: seq<Action>, pool: seq<byte>, i: nat, k: nat)
    requires LastBrace(actions, pool, i, k) && Separated(actions)
    ensures ActionsOk(actions, pool) && (LongTail(Expand(actions, pool)) <==> actions[i].len - k > MAX_FMT)
  {
    hide Expand, ByteSeq, NoBrace, LeadingBytes, LongTail;
    TailParts(actions, pool, i, k);
    var a := actions[i];
    var back := actions[i + 1..];
    hide LastBrace, Separated, ActionsOk;
    TailOf(Expand(actions[..i], pool), pool[a.off..a.off + k], pool[a.off + k + 1..a.off + a.len], Expand(back, pool));
  }

  lemma TailParts(actions: seq<Action>, pool: seq<byte>, i: nat, k: nat)
    requires LastBrace(actions, pool, i, k) && Separated(actions)
    ensures ActionsOk(actions, pool) && ActionsOk(actions[..i], pool) && ActionsOk(actions[i + 1..], pool)
    ensures var a := actions[i]; var back := Expand(actions[i + 1..], pool);
            && NoBrace(back) && LeadingBytes(back) == 0
            && NoBrace(ByteSeq(pool[a.off + k + 1..a.off + a.len]))
            && Expand(actions, pool)
               == Expand(actions[..i], pool)
                  + (ByteSeq(pool[a.off..a.off + k])
                     + ([Byte(BRACE)] + ByteSeq(pool[a.off + k + 1..a.off + a.len])))
                  + back
  {
    hide Expand, ByteSeq, NoBrace, LeadingBytes, ActionsOk;
    var a := actions[i];
    BackHasNoBrace(actions, pool, i);
    OldMeaning(actions, pool, i, k);
    ByteSeqBrace(pool[a.off + k + 1..a.off + a.len]);
    StartsWithValue(actions[i + 1..], pool);
  }

  lemma TailOf(front: seq<Piece>, lit: seq<byte>, tail: seq<byte>, back: seq<Piece>)
    requires NoBrace(ByteSeq(tail)) && NoBrace(back) && LeadingBytes(back) == 0
    ensures LongTail(front + (ByteSeq(lit) + ([Byte(BRACE)] + ByteSeq(tail))) + back) <==> 1 + |tail| > MAX_FMT
  {
    hide ByteSeq, NoBrace, LeadingBytes, LongTail;
    var rest := ByteSeq(tail) + back;
    LeadingByteSeq(tail, back);
    NoBraceEither(ByteSeq(tail), back);
    OneMoreByte(rest);
    Regroup(front, ByteSeq(lit), [Byte(BRACE)], ByteSeq(tail), back);
    TailAt(front + ByteSeq(lit), rest);
  }

  lemma NoBraceEither(a: seq<Piece>, b: seq<Piece>)
    requires NoBrace(a) && NoBrace(b)
    ensures NoBrace(a + b)
  {
  }

  lemma OneMoreByte(rest: seq<Piece>)
    ensures LeadingBytes([Byte(BRACE)] + rest) == 1 + LeadingBytes(rest)
  {
    assert ([Byte(BRACE)] + rest)[1..] == rest;
  }

  lemma Regroup(a: seq<Piece>, b: seq<Piece>, c: seq<Piece>, d: seq<Piece>, e: seq<Piece>)
    ensures a + (b + (c + d)) + e == (a + b) + (c + (d + e))
  {
  }

  lemma TailAt(front: seq<Piece>, rest: seq<Piece>)
    requires NoBrace(rest)
    ensures LongTail(front + ([Byte(BRACE)] + rest)) <==> LeadingBytes([Byte(BRACE)] + rest) > MAX_FMT
  {
    hide LeadingBytes, NoBrace;
    var ps, j := front + ([Byte(BRACE)] + rest), |front|;
    assert ps[j..] == [Byte(BRACE)] + rest && ps[j + 1..] == rest;
    assert LastBraceAt(ps, j);
    hide LastBraceAt;
    forall x | 0 <= x < |ps| && x != j ensures !LastBraceAt(ps, x) { OneLastBrace(ps, x, j); }
  }

  /** json_splice_fields_action: it gives up exactly when the tail is too long. */
  method Splice(actions: seq<Action>, pool: seq<byte>)
    returns (ok: bool, actions': seq<Action>, pool': seq<byte>)
    requires ActionsOk(actions, pool) && Separated(actions)
    ensures ok <==> !LongTail(Expand(actions, pool))
    ensures ok ==> ActionsOk(actions', pool') && Expand(actions', pool') == InsertFields(Expand(actions, pool))
  {
    hide Expand, InsertFields, Spliced, LongTail, Separated;
    ok, actions', pool' := true, actions, pool;
    var i := |actions|;
    while i > 0
      invariant 0 <= i <= |actions| && Behind(actions, pool, i)
    {
      i := i - 1;
      var a := actions[i];
      if a.kind != Literal || a.len == 0 {
        continue;
      }
      assert ActionOk(a, pool);
      var k := a.len;
      while k > 0
        invariant 0 <= k <= a.len && BRACE !in pool[a.off + k..a.off + a.len]
      {
        k := k - 1;
        if pool[a.off + k] != BRACE {
          assert pool[a.off + k..a.off + a.len] == [pool[a.off + k]] + pool[a.off + k + 1..a.off + a.len];
          continue;
        }
        assert LastBrace(actions, pool, i, k);
        TailIs(actions, pool, i, k);
        if a.len - k > MAX_FMT {
          return false, actions, pool;
        }
        SpliceInserts(actions, pool, i, k);
        actions' := Spliced(actions, pool, i, k);
        pool' := pool + pool[a.off + k..a.off + a.len];
        return;
      }
    }
    BehindHasNoBrace(actions, pool);
    NoInsertion(Expand(actions, pool));
    NoTail(Expand(actions, pool));
  }

  lemma NoTail(ps: seq<Piece>)
    requires NoBrace(ps)
    ensures !LongTail(ps)
  {
  }

  /** hpu_format_compile: a template compiles unless it has an illegal placeholder or is a
      json template whose tail is too long to splice, and then means what reading it
      directly means, with the field list spliced into json. */
  method Compile(t: seq<byte>, isJson: bool) returns (status: Status, f: Format)
    ensures status == ConfigError <==> Read(t, 0).None?
    ensures status == NoMemory <==> isJson && Read(t, 0).Some? && LongTail(Read(t, 0).value)
    ensures status == Ok ==>
              f.isJson == isJson && ActionsOk(f.actions, f.pool)
              && Expand(f.actions, f.pool) == if isJson then InsertFields(Read(t, 0).value) else Read(t, 0).value
  {
    hide Expand, InsertFields, Read, ActionsOk, LongTail, Separated;
    var actions, pool;
    status, actions, pool := Scan(t);
    f := Format(isJson, actions, pool);
    if status == Ok && isJson {
      var ok;
      ok, actions, pool := Splice(actions, pool);
      f := Format(isJson, actions, pool);
      if !ok {
        status := NoMemory;
      }
    }
  }
}
