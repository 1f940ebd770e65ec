/** The bounded renderer: values are appended to a line buffer that stops at a limit, widths
    and precisions are applied in place, and an overlong line is truncated. */
module FormatRender {
  import opened Bytes
  import opened Options
  import opened JsonText
  import opened Fields
  import opened FormatTemplate
  import opened FormatLine

  function Clip(s: seq<byte>, limit: nat): seq<byte> { if |s| <= limit then s else s[..limit] }

  /** Appending `bs` to `before` under the limit. */
  predicate Wrote(limit: nat, before: seq<byte>, was: bool, bs: seq<byte>, after: seq<byte>, now: bool) {
    after == Clip(before + bs, limit) && now == (was || |before| + |bs| > limit)
  }

  lemma WroteTwice(limit: nat, s0: seq<byte>, t0: bool, a: seq<byte>, s1: seq<byte>, t1: bool, b: seq<byte>,
                   s2: seq<byte>, t2: bool)
    requires |s0| <= limit && Wrote(limit, s0, t0, a, s1, t1) && Wrote(limit, s1, t1, b, s2, t2)
    ensures Wrote(limit, s0, t0, a + b, s2, t2)
  {
    assert s0 + (a + b) == (s0 + a) + b;
  }

  lemma WroteNothing(limit: nat, s: seq<byte>, t: bool)
    requires |s| <= limit
    ensures Wrote(limit, s, t, [], s, t)
  {
    assert s + [] == s;
  }

  /** A line whose current value began at `start`, padded to the width unless that would
      push it past the limit. */
  function Padded(limit: nat, start: nat, s: seq<byte>, width: nat, left: bool): seq<byte>
    requires start <= |s|
  {
    var pad := width - (|s| - start);
    if pad > 0 && |s| + pad <= limit then
      if left then s + Spaces(pad) else s[..start] + Spaces(pad) + s[start..]
    else s
  }

  /** What modifier_finish makes of it. */
  function Finished(limit: nat, start: nat, s: seq<byte>, pre: bool, t: bool, m: Mod): (seq<byte>, bool)
    requires start <= |s|
  {
    var cut := m.hasPrec && |s| - start > m.prec;
    (Padded(limit, start, if cut then s[..start + m.prec] else s, m.width, m.left), if cut then pre else t)
  }

  class LineBuffer {
    const p: array<byte>
    const limit: nat
    var len: nat
    var truncated: bool

    ghost predicate Valid()
      reads this
    {
      len <= limit <= p.Length
    }

    constructor (p: array<byte>, limit: nat)
      requires limit <= p.Length
      ensures this.p == p && this.limit == limit && len == 0 && !truncated && Valid()
    {
      this.p := p;
      this.limit := limit;
      len, truncated := 0, false;
    }

    /** rb_append. */
    method Append(bs: seq<byte>)
      requires Valid()
      modifies this`len, this`truncated, p
      ensures Valid() && Wrote(limit, old(p[..len]), old(truncated), bs, p[..len], truncated)
    {
      var space := limit - len;
      var n := |bs|;
      if n > space {
        n := space;
        truncated := true;
      }
      SpliceUpto(p[..], len, bs[..n]);
      CopyInto(p, len, bs[..n]);
      assert p[..len + n] == p[..][..len + n] && old(p[..])[..len] == old(p[..len]);
      len := len + n;
      assert old(p[..len]) + bs[..n] == (old(p[..len]) + bs)[..old(len) + n];
    }

    /** rb_append_ch. */
    method AppendByte(c: byte)
      requires Valid()
      modifies this`len, this`truncated, p
      ensures Valid() && Wrote(limit, old(p[..len]), old(truncated), [c], p[..len], truncated)
    {
      if len < limit {
        p[len] := c;
        len := len + 1;
      } else {
        truncated := true;
        assert (old(p[..len]) + [c])[..limit] == old(p[..len]);
      }
    }

    method AppendEscape(c: byte)
      requires Valid()
      modifies this`len, this`truncated, p
      ensures Valid() && Wrote(limit, old(p[..len]), old(truncated), Escape(c), p[..len], truncated)
    {
      hide Wrote;
      if c == QUOTE {
        Append([BACKSLASH, QUOTE]);
      } else if c == BACKSLASH {
        Append([BACKSLASH, BACKSLASH]);
      } else if c == 10 {
        Append([BACKSLASH, 0x6E]);
      } else if c == 13 {
        Append([BACKSLASH, 0x72]);
      } else if c == 9 {
        Append([BACKSLASH, 0x74]);
      } else if c == 8 {
        Append([BACKSLASH, 0x62]);
      } else if c == 12 {
        Append([BACKSLASH, 0x66]);
      } else if c < 0x20 {
        Append([BACKSLASH, 0x75, 0x30, 0x30, Hex(c / 16), Hex(c % 16)]);
      } else {
        AppendByte(c);
      }
    }

    /** rb_append_escaped_json. */
    method AppendEscaped(s: seq<byte>)
      requires Valid()
      modifies this`len, this`truncated, p
      ensures Valid() && Wrote(limit, old(p[..len]), old(truncated), Escaped(s), p[..len], truncated)
    {
      hide Wrote, Escaped, Escape;
      WroteNothing(limit, p[..len], truncated);
      EscapedEnds(s);
      var i := 0;
      while i < |s|
        invariant 0 <= i <= |s| && Valid()
        invariant Wrote(limit, old(p[..len]), old(truncated), Escaped(s[..i]), p[..len], truncated)
      {
        ghost var s1, t1 := p[..len], truncated;
        EscapedGrows(s, i);
        AppendEscape(s[i]);
        WroteTwice(limit, old(p[..len]), old(truncated), Escaped(s[..i]), s1, t1, Escape(s[i]), p[..len], truncated);
        i := i + 1;
      }
    }

    /** rb_append_escaped_injection. */
    method AppendVisible(s: seq<byte>)
      requires Valid()
      modifies this`len, this`truncated, p
      ensures Valid() && Wrote(limit, old(p[..len]), old(truncated), Visibles(s), p[..len], truncated)
    {
      hide Wrote, Visibles;
      WroteNothing(limit, p[..len], truncated);
      VisiblesEnds(s);
      var i := 0;
      while i < |s|
        invariant 0 <= i <= |s| && Valid()
        invariant Wrote(limit, old(p[..len]), old(truncated), Visibles(s[..i]), p[..len], truncated)
      {
        ghost var s1, t1 := p[..len], truncated;
        var c := s[i];
        VisiblesGrows(s, i);
        if c == 10 || c == 13 {
          Append([BACKSLASH, 0x6E]);
        } else if c == 0x1B {
          Append([BACKSLASH, 0x78, 0x31, 0x62]);
        } else {
          AppendByte(c);
        }
        WroteTwice(limit, old(p[..len]), old(truncated), Visibles(s[..i]), s1, t1, Visible(c), p[..len], truncated);
        i := i + 1;
      }
    }

    method AppendText(s: seq<byte>, json: bool, inject: bool)
      requires Valid()
      modifies this`len, this`truncated, p
      ensures Valid() && Wrote(limit, old(p[..len]), old(truncated), TextOf(s, json, inject), p[..len], truncated)
    {
      if json {
        AppendEscaped(s);
      } else if inject {
        AppendVisible(s);
      } else {
        Append(s);
      }
    }

    /** fields_render_one. */
    method AppendField(s: Span, rest: seq<byte>, json: bool, env: Env, first: bool)
      requires Valid()
      modifies this`len, this`truncated, p
      ensures Valid()
      ensures Wrote(limit, old(p[..len]), old(truncated), FieldText(s, rest, json, env, first), p[..len], truncated)
    {
      hide Wrote, TextOf, Escaped;
      ghost var s0, t0 := p[..len], truncated;
      var sep: seq<byte> := if first then [] else if json then [COMMA] else [0x20];
      Append(sep);
      ghost var s1, t1 := p[..len], truncated;
      AppendKey(s.key, json, env.escapeInjection);
      ghost var s2, t2 := p[..len], truncated;
      ghost var key := if json then [QUOTE] + Escaped(s.key) + [QUOTE, 0x3A]
                       else TextOf(s.key, false, env.escapeInjection) + [0x3D];
      WroteTwice(limit, s0, t0, sep, s1, t1, key, s2, t2);
      ghost var val := if s.tag != 4 then ScalarText(s.tag, rest, env)
                       else if json then [QUOTE] + Escaped(s.val) + [QUOTE]
                       else TextOf(s.val, false, env.escapeInjection);
      if s.tag != 4 {
        Append(ScalarText(s.tag, rest, env));
      } else if json {
        AppendQuoted(s.val);
      } else {
        AppendText(s.val, false, env.escapeInjection);
      }
      WroteTwice(limit, s0, t0, sep + key, s2, t2, val, p[..len], truncated);
    }

    method AppendQuoted(s: seq<byte>)
      requires Valid()
      modifies this`len, this`truncated, p
      ensures Valid()
      ensures Wrote(limit, old(p[..len]), old(truncated), [QUOTE] + Escaped(s) + [QUOTE], p[..len], truncated)
    {
      hide Wrote, Escaped;
      ghost var s0, t0 := p[..len], truncated;
      Append([QUOTE]);
      ghost var s1, t1 := p[..len], truncated;
      AppendEscaped(s);
      ghost var s2, t2 := p[..len], truncated;
      WroteTwice(limit, s0, t0, [QUOTE], s1, t1, Escaped(s), s2, t2);
      Append([QUOTE]);
      WroteTwice(limit, s0, t0, [QUOTE] + Escaped(s), s2, t2, [QUOTE], p[..len], truncated);
    }

    method AppendKey(key: seq<byte>, json: bool, inject: bool)
      requires Valid()
      modifies this`len, this`truncated, p
      ensures Valid()
      ensures Wrote(limit, old(p[..len]), old(truncated),
                    if json then [QUOTE] + Escaped(key) + [QUOTE, 0x3A] else TextOf(key, false, inject) + [0x3D],
                    p[..len], truncated)
    {
      hide Wrote, Escaped, TextOf;
      ghost var s0, t0 := p[..len], truncated;
      if json {
        Append([QUOTE]);
        ghost var s1, t1 := p[..len], truncated;
        AppendEscaped(key);
        ghost var s2, t2 := p[..len], truncated;
        WroteTwice(limit, s0, t0, [QUOTE], s1, t1, Escaped(key), s2, t2);
        Append([QUOTE, 0x3A]);
        WroteTwice(limit, s0, t0, [QUOTE] + Escaped(key), s2, t2, [QUOTE, 0x3A], p[..len], truncated);
      } else {
        AppendText(key, false, inject);
        ghost var s1, t1 := p[..len], truncated;
        Append([0x3D]);
        WroteTwice(limit, s0, t0, TextOf(key, false, inject), s1, t1, [0x3D], p[..len], truncated);
      }
    }

    /** The loop of fields_render. */
    method AppendSpans(wire: seq<byte>, n: nat, json: bool, env: Env)
      requires Valid()
      modifies this`len, this`truncated, p
      ensures Valid()
      ensures Wrote(limit, old(p[..len]), old(truncated), FieldsFrom(wire, n, json, env, true), p[..len], truncated)
    {
      hide Wrote, FieldsFrom, FieldText, FirstSpan, SpanLen;
      WroteNothing(limit, p[..len], truncated);
      ghost var all := FieldsFrom(wire, n, json, env, true);
      ghost var done: seq<byte> := [];
      var off: nat, i: nat, first := 0, 0, true;
      assert wire[0..] == wire && [] + all == all;
      while i < n
        invariant i <= n && off <= |wire| && Valid()
        invariant all == done + FieldsFrom(wire[off..], n - i, json, env, first)
        invariant Wrote(limit, old(p[..len]), old(truncated), done, p[..len], truncated)
      {
        var span := FirstSpan(wire[off..]);
        FieldsStep(wire[off..], n - i, json, env, first);
        if span.None? {
          assert done + [] == done;
          return;
        }
        var s := span.value;
        var rest := wire[off..][6 + |s.key|..];
        ghost var s1, t1 := p[..len], truncated;
        AppendField(s, rest, json, env, first);
        ghost var text := FieldText(s, rest, json, env, first);
        WroteTwice(limit, old(p[..len]), old(truncated), done, s1, t1, text, p[..len], truncated);
        SpanDone(wire, off, SpanLen(s), done, text, FieldsFrom(wire[off..][SpanLen(s)..], n - i - 1, json, env, false));
        done := done + text;
        off, i, first := off + SpanLen(s), i + 1, false;
      }
      NoFieldsLeft(wire[off..], json, env, first);
      assert done + [] == done;
    }

    /** fields_render. */
    method AppendFields(r: Record, json: bool, env: Env)
      requires Valid()
      modifies this`len, this`truncated, p
      ensures Valid()
      ensures Wrote(limit, old(p[..len]), old(truncated), FormatLine.FieldList(r, json, env), p[..len], truncated)
    {
      hide Wrote, FieldsFrom;
      ghost var s0, t0 := p[..len], truncated;
      if r.fieldCount == 0 || r.wire.None? {
        WroteNothing(limit, s0, t0);
        return;
      }
      if json {
        Append(FIELDS_OPEN);
        ghost var s1, t1 := p[..len], truncated;
        AppendSpans(r.wire.value, r.fieldCount, true, env);
        ghost var s2, t2 := p[..len], truncated;
        ghost var all := FieldsFrom(r.wire.value, r.fieldCount, true, env, true);
        WroteTwice(limit, s0, t0, FIELDS_OPEN, s1, t1, all, s2, t2);
        Append([BRACE]);
        WroteTwice(limit, s0, t0, FIELDS_OPEN + all, s2, t2, [BRACE], p[..len], truncated);
      } else {
        AppendSpans(r.wire.value, r.fieldCount, false, env);
      }
    }

    method AppendNumber(v: nat, style: NumberStyle, json: bool)
      requires Valid()
      modifies this`len, this`truncated, p
      ensures Valid() && Wrote(limit, old(p[..len]), old(truncated), Styled(v, style, json), p[..len], truncated)
    {
      if json {
        Append(NumberText(v, false));
      } else if style != Hidden {
        Append(NumberText(v, style == Hexadecimal));
      } else {
        WroteNothing(limit, p[..len], truncated);
      }
    }

    /** The switch over the action kinds in hpu_format_render. */
    method AppendContent(k: Kind, r: Record, json: bool, env: Env)
      requires Valid() && k != Literal
      modifies this`len, this`truncated, p
      ensures Valid() && Wrote(limit, old(p[..len]), old(truncated), Content(k, r, json, env), p[..len], truncated)
    {
      hide Wrote, FormatLine.FieldList, TextOf, NumberText, Styled, LevelTag;
      WroteNothing(limit, p[..len], truncated);
      match k
      case Level =>
        LevelTagOnly(r.level);
        if 0 <= r.level <= 5 {
          Append(LevelTag(r.level));
        }
      case Time => Append(if env.useUtc then r.utcTime else r.localTime);
      case TimeUtc => Append(r.utcTime);
      case Pid => AppendNumber(env.pid, env.pidStyle, json);
      case Tid => AppendNumber(r.tid, env.tidStyle, json);
      case File =>
        if env.sourceLoc && r.file.Some? {
          AppendText(r.file.value, json, false);
        }
      case LineNumber =>
        if env.sourceLoc {
          Append(NumberText(if r.line < 0 then 0 else r.line, false));
        }
      case Func =>
        if env.sourceLoc && r.func.Some? {
          AppendText(r.func.value, json, false);
        }
      case Text => AppendText(r.text, json, env.escapeInjection);
      case Category =>
        NoText(json);
        if |r.category| > 0 {
          AppendText(r.category, json, false);
        }
      case Newline => Append(NewlineBytes(env.crlf));
      case FieldList => AppendFields(r, json, env);
    }

    /** modifier_finish. */
    method Finish(start: nat, pre: bool, m: Mod)
      requires Valid() && start <= len
      modifies this`len, this`truncated, p
      ensures Valid() && start <= len
      ensures (p[..len], truncated) == Finished(limit, start, old(p[..len]), pre, old(truncated), m)
    {
      hide Padded;
      var written := len - start;
      if m.hasPrec && written > m.prec {
        assert p[..start + m.prec] == p[..len][..start + m.prec];
        len := start + m.prec;
        truncated := pre;
      }
      Pad(start, m.width, m.left);
    }

    method Pad(start: nat, width: nat, left: bool)
      requires Valid() && start <= len
      modifies this`len, p
      ensures Valid() && start <= len && p[..len] == Padded(limit, start, old(p[..len]), width, left)
    {
      var written := len - start;
      if width != 0 && written < width {
        var pad := width - written;
        if left {
          if len + pad <= limit {
            FillSpaces(len, pad);
            len := len + pad;
          }
        } else if start + written + pad <= limit {
          PadBefore(start, pad);
        }
      }
    }

    method PadBefore(start: nat, pad: nat)
      requires Valid() && start <= len && len + pad <= limit
      modifies this`len, p
      ensures Valid() && len == old(len) + pad
      ensures p[..len] == old(p[..len])[..start] + Spaces(pad) + old(p[..len])[start..]
    {
      ghost var s := p[..len];
      Shift(start, len - start, pad);
      ghost var s1 := p[..];
      FillSpaces(start, pad);
      assert p[start + pad..len + pad] == s1[start + pad..len + pad];
      assert p[..len + pad] == p[..start + pad] + p[start + pad..len + pad];
      len := len + pad;
    }

    method FillSpaces(at: nat, n: nat)
      requires at + n <= p.Length
      modifies p
      ensures p[..at] == old(p[..at]) && p[at..at + n] == Spaces(n) && p[at + n..] == old(p[at + n..])
      ensures p[..at + n] == old(p[..at]) + Spaces(n)
    {
      var i := 0;
      while i < n
        invariant 0 <= i <= n
        invariant forall x | 0 <= x < p.Length :: p[x] == if at <= x < at + i then 0x20 else old(p[x])
      {
        p[at + i] := 0x20;
        i := i + 1;
      }
      assert p[..at + n] == p[..at] + p[at..at + n];
    }

    /** memmove of `n` bytes at `from` up by `pad`. */
    method Shift(from: nat, n: nat, pad: nat)
      requires from + n + pad <= p.Length
      modifies p
      ensures p[..from] == old(p[..from]) && p[from + pad..from + pad + n] == old(p[from..from + n])
    {
      var i := n;
      while i > 0
        invariant 0 <= i <= n
        invariant forall x | 0 <= x < p.Length ::
                    p[x] == if from + pad + i <= x < from + pad + n then old(p[x - pad]) else old(p[x])
      {
        i := i - 1;
        p[from + pad + i] := p[from + i];
      }
    }
  }

  // ---------------------------------------------------------------- the line

  /** How far a line is drawn: the clipped line `u`, and a flag that tells whether it was
      clipped or the precision of a value stopped at the limit (`stops`). */
  predicate Drawn(limit: nat, s: seq<byte>, t: bool, u: seq<byte>, stops: bool) {
    && s == Clip(u, limit) && t == (|u| > limit || stops)
    && (stops ==> |u| >= limit)
  }

  lemma DrawsContent(limit: nat, s: seq<byte>, t: bool, u: seq<byte>, stops: bool, bs: seq<byte>,
                     s': seq<byte>, t': bool)
    requires Drawn(limit, s, t, u, stops) && Wrote(limit, s, t, bs, s', t')
    ensures Drawn(limit, s', t', u + bs, stops)
  {
    if |u| > limit { assert Clip(s + bs, limit) == s; }
  }

  /** A value with a modifier: although more of it may have been written first, what is left
      is its cut and padded text, without padding that would pass the limit, and the flag
      tells whether that was clipped or its precision stopped at the limit. */
  lemma DrawsValue(limit: nat, s: seq<byte>, t: bool, u: seq<byte>, stops: bool, bs: seq<byte>, m: Mod,
                   s1: seq<byte>, t1: bool)
    requires Drawn(limit, s, t, u, stops) && Wrote(limit, s, t, bs, s1, t1)
    ensures |s| <= |s1|
    ensures var (s', t') := Finished(limit, |s|, s1, t, t1, m);
            var text := if |u| + m.width > limit then Cut(m, bs) else Fit(m, bs);
            Drawn(limit, s', t', u + text, stops || (m.hasPrec && |bs| > m.prec && |u| + m.prec == limit))
  {
    CutDrawn(limit, s, t, u, stops, bs, m, s1, t1);
    PadDrawn(limit, u, |s|, Cut(m, bs), m);
    hide Padded, Wrote;
  }

  lemma CutDrawn(limit: nat, s: seq<byte>, t: bool, u: seq<byte>, stops: bool, bs: seq<byte>, m: Mod,
                 s1: seq<byte>, t1: bool)
    requires Drawn(limit, s, t, u, stops) && Wrote(limit, s, t, bs, s1, t1)
    ensures |s| <= |s1|
    ensures var cut := m.hasPrec && |s1| - |s| > m.prec;
            && |s| == |Clip(u, limit)|
            && (if cut then s1[..|s| + m.prec] else s1) == Clip(u + Cut(m, bs), limit)
            && (if cut then t else t1)
               == (|u + Cut(m, bs)| > limit || stops || (m.hasPrec && |bs| > m.prec && |u| + m.prec == limit))
  {
    if |u| > limit {
      assert Clip(s + bs, limit) == s;
    } else if m.hasPrec && |bs| > m.prec {
      assert (u + bs)[..|u| + m.prec] == u + bs[..m.prec];
    }
  }

  lemma PadDrawn(limit: nat, u: seq<byte>, start: nat, c: seq<byte>, m: Mod)
    requires start == |Clip(u, limit)|
    ensures start <= |Clip(u + c, limit)|
    ensures Padded(limit, start, Clip(u + c, limit), m.width, m.left)
            == if |u| + m.width > limit || |c| >= m.width then Clip(u + c, limit)
               else if m.left then u + (c + Spaces(m.width - |c|))
               else u + (Spaces(m.width - |c|) + c)
  {
    if |u| + m.width <= limit && |c| < m.width {
      var pad := Spaces(m.width - |c|);
      assert (u + c)[..|u|] == u && (u + c)[|u|..] == c;
      assert u + c + pad == u + (c + pad) && u + pad + c == u + (pad + c);
    }
  }

  /** The pieces of the first `i` actions, slimmed to the limit. */
  ghost function Upto(f: Format, i: nat, r: Record, env: Env, limit: nat): seq<Piece>
    requires ActionsOk(f.actions, f.pool) && i <= |f.actions|
  {
    Slimmed(Expand(f.actions[..i], f.pool), r, f.isJson, env, limit)
  }

  /** The pieces action `a` adds behind `qs`. */
  function Added(qs: seq<Piece>, a: Action, pool: seq<byte>, r: Record, json: bool, env: Env, max: nat): seq<Piece>
    requires ActionOk(a, pool)
  {
    if a.kind == Literal then ByteSeq(pool[a.off..a.off + a.len])
    else [Slim(Value(a.kind, a.mod), |LineOf(qs, r, json, env)|, r, json, env, max)]
  }

  lemma UptoStep(f: Format, i: nat, r: Record, env: Env, limit: nat)
    requires ActionsOk(f.actions, f.pool) && i < |f.actions|
    ensures ActionOk(f.actions[i], f.pool)
    ensures var qs := Upto(f, i, r, env, limit);
            Upto(f, i + 1, r, env, limit) == qs + Added(qs, f.actions[i], f.pool, r, f.isJson, env, limit)
  {
    hide Expand, Slimmed, Added, ActionPieces, ActionOk, ActionsOk;
    ExpandUpto(f.actions, f.pool, i);
    SlimmedAction(Expand(f.actions[..i], f.pool), f.actions[i], f.pool, r, f.isJson, env, limit);
  }

  lemma SlimmedAction(ps: seq<Piece>, a: Action, pool: seq<byte>, r: Record, json: bool, env: Env, max: nat)
    requires ActionOk(a, pool)
    ensures var front := Slimmed(ps, r, json, env, max);
            Slimmed(ps + ActionPieces(a, pool), r, json, env, max) == front + Added(front, a, pool, r, json, env, max)
  {
    hide Slimmed, LineOf, ByteSeq;
    if a.kind == Literal {
      SlimmedBytes(ps, pool[a.off..a.off + a.len], r, json, env, max);
    } else {
      SlimmedAppend(ps, Value(a.kind, a.mod), r, json, env, max);
    }
  }

  lemma SlimmedAppend(ps: seq<Piece>, p: Piece, r: Record, json: bool, env: Env, max: nat)
    ensures var front := Slimmed(ps, r, json, env, max);
            Slimmed(ps + [p], r, json, env, max) == front + [Slim(p, |LineOf(front, r, json, env)|, r, json, env, max)]
  {
    assert (ps + [p])[..|ps|] == ps;
  }

  lemma {:induction false} SlimmedBytes(ps: seq<Piece>, bs: seq<byte>, r: Record, json: bool, env: Env, max: nat)
    ensures Slimmed(ps + ByteSeq(bs), r, json, env, max) == Slimmed(ps, r, json, env, max) + ByteSeq(bs)
  {
    if bs == [] {
      assert ps + ByteSeq(bs) == ps;
    } else {
      var n := |bs| - 1;
      assert bs == bs[..n] + [bs[n]] && ByteSeq([bs[n]]) == [Byte(bs[n])];
      ByteSeqConcat(bs[..n], [bs[n]]);
      hide Slimmed, LineOf, ByteSeq;
      SlimmedBytes(ps, bs[..n], r, json, env, max);
      assert ps + (ByteSeq(bs[..n]) + [Byte(bs[n])]) == (ps + ByteSeq(bs[..n])) + [Byte(bs[n])];
      SlimmedAppend(ps + ByteSeq(bs[..n]), Byte(bs[n]), r, json, env, max);
    }
  }

  lemma StopsAppend(qs: seq<Piece>, p: Piece, r: Record, json: bool, env: Env, max: nat)
    ensures AnyStops(qs + [p], r, json, env, max)
            <==> AnyStops(qs, r, json, env, max) || StopsAt(p, |LineOf(qs, r, json, env)|, r, json, env, max)
  {
    hide LineOf, StopsAt;
    var all := qs + [p];
    assert all[..|qs|] == qs && all[|qs|] == p;
    forall j | 0 <= j < |qs| ensures all[..j] == qs[..j] && all[j] == qs[j] {}
    if AnyStops(qs, r, json, env, max) {
      var j :| 0 <= j < |qs| && StopsAt(qs[j], |LineOf(qs[..j], r, json, env)|, r, json, env, max);
      assert StopsAt(all[j], |LineOf(all[..j], r, json, env)|, r, json, env, max);
    }
    if StopsAt(p, |LineOf(qs, r, json, env)|, r, json, env, max) {
      assert StopsAt(all[|qs|], |LineOf(all[..|qs|], r, json, env)|, r, json, env, max);
    }
  }

  lemma {:induction false} StopsBytes(qs: seq<Piece>, bs: seq<byte>, r: Record, json: bool, env: Env, max: nat)
    ensures AnyStops(qs + ByteSeq(bs), r, json, env, max) <==> AnyStops(qs, r, json, env, max)
  {
    if bs == [] {
      assert qs + ByteSeq(bs) == qs;
    } else {
      var n := |bs| - 1;
      assert bs == bs[..n] + [bs[n]] && ByteSeq([bs[n]]) == [Byte(bs[n])];
      ByteSeqConcat(bs[..n], [bs[n]]);
      hide AnyStops, LineOf, ByteSeq;
      StopsBytes(qs, bs[..n], r, json, env, max);
      assert qs + (ByteSeq(bs[..n]) + [Byte(bs[n])]) == (qs + ByteSeq(bs[..n])) + [Byte(bs[n])];
      StopsAppend(qs + ByteSeq(bs[..n]), Byte(bs[n]), r, json, env, max);
    }
  }

  lemma OneValue(v: Piece, r: Record, json: bool, env: Env)
    ensures LineOf([v], r, json, env) == PieceText(v, r, json, env)
  {
    hide PieceText;
    assert [v][1..] == [];
    assert PieceText(v, r, json, env) + [] == PieceText(v, r, json, env);
  }

  lemma NoModifier(limit: nat, start: nat, s: seq<byte>, pre: bool, t: bool, bs: seq<byte>)
    requires start <= |s|
    ensures Finished(limit, start, s, pre, t, NO_MOD) == (s, t) && Fit(NO_MOD, bs) == bs
  {
  }

  /** The drawing of the pieces `qs`. */
  ghost predicate DrawnLine(limit: nat, s: seq<byte>, t: bool, qs: seq<Piece>, r: Record, json: bool, env: Env) {
    Drawn(limit, s, t, LineOf(qs, r, json, env), AnyStops(qs, r, json, env, limit))
  }

  /** Draws the actions of a format. */
  method Draw(f: Format, r: Record, env: Env, b: LineBuffer)
    requires ActionsOk(f.actions, f.pool) && b.Valid() && b.len == 0 && !b.truncated
    modifies b, b.p
    ensures b.Valid()
    ensures DrawnLine(b.limit, b.p[..b.len], b.truncated,
                      Slimmed(Expand(f.actions, f.pool), r, f.isJson, env, b.limit), r, f.isJson, env)
  {
    hide DrawnLine, Wrote, Upto, Content, Fit, Finished, Expand, Slimmed;
    UptoEnds(f, r, env, b.limit);
    NothingDrawn(b.limit, r, f.isJson, env);
    assert b.p[..b.len] == [];
    var i := 0;
    while i < |f.actions|
      invariant 0 <= i <= |f.actions| && b.Valid()
      invariant DrawnLine(b.limit, b.p[..b.len], b.truncated, Upto(f, i, r, env, b.limit), r, f.isJson, env)
    {
      var a := f.actions[i];
      UptoStep(f, i, r, env, b.limit);
      ghost var s, t := b.p[..b.len], b.truncated;
      DrawAction(f, a, r, env, b);
      ActionDrawn(b.limit, s, t, Upto(f, i, r, env, b.limit), f, a, r, env, b.p[..b.len], b.truncated);
      i := i + 1;
    }
  }

  lemma UptoEnds(f: Format, r: Record, env: Env, limit: nat)
    requires ActionsOk(f.actions, f.pool)
    ensures Upto(f, 0, r, env, limit) == []
    ensures Upto(f, |f.actions|, r, env, limit) == Slimmed(Expand(f.actions, f.pool), r, f.isJson, env, limit)
  {
    assert f.actions[..|f.actions|] == f.actions;
  }

  /** What drawing one action leaves. */
  ghost predicate DrewAction(limit: nat, s: seq<byte>, t: bool, f: Format, a: Action, r: Record, env: Env,
                             s': seq<byte>, t': bool)
    requires ActionOk(a, f.pool)
  {
    if a.kind == Literal then Wrote(limit, s, t, f.pool[a.off..a.off + a.len], s', t')
    else exists s1, t1 ::
      Wrote(limit, s, t, FormatLine.Content(a.kind, r, f.isJson, env), s1, t1) && |s| <= |s1|
      && (s', t') == Finished(limit, |s|, s1, t, t1, a.mod)
  }

  method DrawAction(f: Format, a: Action, r: Record, env: Env, b: LineBuffer)
    requires ActionOk(a, f.pool) && b.Valid()
    modifies b, b.p
    ensures b.Valid()
    ensures DrewAction(b.limit, old(b.p[..b.len]), old(b.truncated), f, a, r, env, b.p[..b.len], b.truncated)
  {
    hide Wrote, Content, Fit, Finished;
    var start, pre := b.len, b.truncated;
    ghost var s := b.p[..b.len];
    if a.kind == Literal {
      b.Append(f.pool[a.off..a.off + a.len]);
    } else {
      b.AppendContent(a.kind, r, f.isJson, env);
      ghost var s1, t1 := b.p[..b.len], b.truncated;
      ghost var bs := FormatLine.Content(a.kind, r, f.isJson, env);
      WroteGrows(b.limit, s, pre, bs, s1, t1);
      NoModifier(b.limit, start, s1, pre, t1, bs);
      if a.mod.left || a.mod.hasPrec || a.mod.width != 0 {
        b.Finish(start, pre, a.mod);
      } else {
        PlainMod(a.mod, b.limit, start, s1, pre, t1);
      }
    }
  }

  lemma PlainMod(m: Mod, limit: nat, start: nat, s: seq<byte>, pre: bool, t: bool)
    requires !m.left && !m.hasPrec && m.width == 0 && start <= |s|
    ensures Finished(limit, start, s, pre, t, m) == (s, t)
  {
  }

  lemma WroteGrows(limit: nat, s: seq<byte>, t: bool, bs: seq<byte>, s': seq<byte>, t': bool)
    requires |s| <= limit && Wrote(limit, s, t, bs, s', t')
    ensures |s| <= |s'|
  {
  }

  lemma NothingDrawn(limit: nat, r: Record, json: bool, env: Env)
    ensures DrawnLine(limit, [], false, [], r, json, env)
  {
  }

  lemma ActionDrawn(limit: nat, s: seq<byte>, t: bool, qs: seq<Piece>, f: Format, a: Action, r: Record, env: Env,
                    s': seq<byte>, t': bool)
    requires DrawnLine(limit, s, t, qs, r, f.isJson, env) && ActionOk(a, f.pool)
    requires DrewAction(limit, s, t, f, a, r, env, s', t')
    ensures DrawnLine(limit, s', t', qs + Added(qs, a, f.pool, r, f.isJson, env, limit), r, f.isJson, env)
  {
    hide DrawnLine, Content, Wrote, Finished, Fit, ByteSeq, Slim, LineOf;
    if a.kind == Literal {
      LiteralDrawn(limit, s, t, qs, f.pool[a.off..a.off + a.len], r, f.isJson, env, s', t');
    } else {
      var bs := FormatLine.Content(a.kind, r, f.isJson, env);
      var s1, t1 :| Wrote(limit, s, t, bs, s1, t1) && |s| <= |s1| && (s', t') == Finished(limit, |s|, s1, t, t1, a.mod);
      ValueDrawn(limit, s, t, qs, a.kind, a.mod, r, f.isJson, env, s1, t1);
    }
  }

  lemma LiteralDrawn(limit: nat, s: seq<byte>, t: bool, qs: seq<Piece>, bs: seq<byte>, r: Record, json: bool, env: Env,
                     s': seq<byte>, t': bool)
    requires DrawnLine(limit, s, t, qs, r, json, env) && Wrote(limit, s, t, bs, s', t')
    ensures DrawnLine(limit, s', t', qs + ByteSeq(bs), r, json, env)
  {
    hide LineOf, AnyStops, Wrote, ByteSeq, Drawn;
    DrawsContent(limit, s, t, LineOf(qs, r, json, env), AnyStops(qs, r, json, env, limit), bs, s', t');
    LineConcat(qs, ByteSeq(bs), r, json, env);
    LineOfBytes(bs, r, json, env);
    StopsBytes(qs, bs, r, json, env, limit);
  }

  lemma ValueDrawn(limit: nat, s: seq<byte>, t: bool, qs: seq<Piece>, k: Kind, m: Mod, r: Record, json: bool, env: Env,
                   s1: seq<byte>, t1: bool)
    requires DrawnLine(limit, s, t, qs, r, json, env) && k != Literal
    requires Wrote(limit, s, t, FormatLine.Content(k, r, json, env), s1, t1)
    ensures |s| <= |s1| && var (s', t') := Finished(limit, |s|, s1, t, t1, m);
            DrawnLine(limit, s', t',
                      qs + [Slim(Value(k, m), |LineOf(qs, r, json, env)|, r, json, env, limit)], r, json, env)
  {
    var u, stops := LineOf(qs, r, json, env), AnyStops(qs, r, json, env, limit);
    var v := Slim(Value(k, m), |u|, r, json, env, limit);
    SlimText(k, m, |u|, r, json, env, limit);
    hide LineOf, AnyStops, Content, Wrote, Finished, Fit, Drawn, StopsAt, Slim, PieceText, Cut;
    DrawsValue(limit, s, t, u, stops, FormatLine.Content(k, r, json, env), m, s1, t1);
    LineConcat(qs, [v], r, json, env);
    OneValue(v, r, json, env);
    StopsAppend(qs, v, r, json, env, limit);
  }

  lemma SlimText(k: Kind, m: Mod, at: nat, r: Record, json: bool, env: Env, limit: nat)
    ensures var v, bs := Slim(Value(k, m), at, r, json, env, limit), FormatLine.Content(k, r, json, env);
            && PieceText(v, r, json, env) == (if at + m.width > limit then Cut(m, bs) else Fit(m, bs))
            && StopsAt(v, at, r, json, env, limit) == (m.hasPrec && |bs| > m.prec && at + m.prec == limit)
  {
  }

  /** hpu_format_render: the output is the line read from the format under its limit, for
      every format, record and limit. The configuration keeps the limit at 256 or more. */
  method Render(f: Format, r: Record, env: Env, maxLine: nat, marker: seq<byte>, out: array<byte>)
    returns (ok: bool, len: nat)
    requires ActionsOk(f.actions, f.pool) && maxLine >= |NewlineBytes(env.crlf)|
    modifies out
    ensures ok <==> out.Length >= maxLine + 1
    ensures ok ==> len <= maxLine && out[len] == 0
    ensures ok ==> out[..len] == Limited(Expand(f.actions, f.pool), r, f.isJson, env, maxLine, marker)
    ensures ok ==>
              var ps := Expand(f.actions, f.pool); var line := LineOf(ps, r, f.isJson, env);
              && (|line| < maxLine ==> out[..len] == line)
              && (|line| == maxLine ==>
                    out[..len] == if AnyStops(ps, r, f.isJson, env, maxLine)
                                  then Shortened(line, maxLine, marker, NewlineBytes(env.crlf))
                                  else line)
              && (Plain(ps) ==> out[..len] == Truncated(line, maxLine, marker, NewlineBytes(env.crlf)))
  {
    hide NewlineBytes, Expand, DrawnLine, Limited, Slimmed, Shortened, Truncated, LineOf, AnyStops, Plain;
    LimitedMeans(Expand(f.actions, f.pool), r, f.isJson, env, maxLine, marker);
    if out.Length < maxLine + 1 {
      return false, 0;
    }
    var newline := NewlineBytes(env.crlf);
    var b := new LineBuffer(out, maxLine);
    Draw(f, r, env, b);
    len := b.len;
    FinalLine(out[..len], b.truncated, Expand(f.actions, f.pool), r, f.isJson, env, maxLine, marker);
    if b.truncated && b.len >= maxLine {
      var content, tail := 0, newline;
      if maxLine > |marker| + |newline| {
        content, tail := maxLine - (|marker| + |newline|), marker + newline;
      }
      assert out[..len][..content] == out[..content];
      SpliceUpto(out[..], content, tail);
      assert out[..][..content] == out[..content];
      CopyInto(out, content, tail);
      assert out[..][..content + |tail|] == out[..content + |tail|];
      len := content + |tail|;
    }
    ghost var drawn := out[..len];
    out[len] := 0;
    assert out[..len] == drawn;
    ok := true;
  }

  /** The bytes the final truncation leaves of what was drawn. */
  function Ended(s: seq<byte>, t: bool, maxLine: nat, marker: seq<byte>, newline: seq<byte>): seq<byte> {
    if t && |s| >= maxLine then
      if maxLine > |marker| + |newline| && |s| == maxLine
      then s[..maxLine - |marker| - |newline|] + (marker + newline)
      else s[..0] + newline
    else s
  }

  lemma FinalLine(s: seq<byte>, t: bool, ps: seq<Piece>, r: Record, json: bool, env: Env, maxLine: nat,
                  marker: seq<byte>)
    requires maxLine >= |NewlineBytes(env.crlf)|
    requires DrawnLine(maxLine, s, t, Slimmed(ps, r, json, env, maxLine), r, json, env)
    ensures |s| <= maxLine && |Limited(ps, r, json, env, maxLine, marker)| <= maxLine
    ensures Ended(s, t, maxLine, marker, NewlineBytes(env.crlf)) == Limited(ps, r, json, env, maxLine, marker)
  {
    var newline := NewlineBytes(env.crlf);
    hide Slimmed, LineOf, AnyStops, NewlineBytes;
    var line := LineOf(Slimmed(ps, r, json, env, maxLine), r, json, env);
    if |line| >= maxLine > |marker| + |newline| {
      var c := maxLine - |marker| - |newline|;
      assert s[..c] == line[..c];
      assert s[..c] + (marker + newline) == line[..c] + marker + newline;
    }
    assert s[..0] + newline == newline;
  }

  // ---------------------------------------------------------------- compile, then render

  lemma {:induction false} InsertKeepsPlain(ps: seq<Piece>)
    requires Plain(ps)
    ensures Plain(InsertFields(ps))
  {
    if ps != [] { InsertKeepsPlain(ps[..|ps| - 1]); }
  }

  /** The pieces a template stands for: as read, with the field list spliced into json. */
  function Meant(ps: seq<Piece>, isJson: bool): seq<Piece> { if isJson then InsertFields(ps) else ps }

  /** From template to line, for every template and record: the line meant by the template
      is rendered under the limit. */
  method CompileAndRender(t: seq<byte>, isJson: bool, r: Record, env: Env, maxLine: nat, marker: seq<byte>,
                          out: array<byte>)
    returns (status: Status, len: nat)
    requires maxLine >= |NewlineBytes(env.crlf)| && out.Length >= maxLine + 1
    modifies out
    ensures status == ConfigError <==> Read(t, 0).None?
    ensures status == NoMemory <==> isJson && Read(t, 0).Some? && LongTail(Read(t, 0).value)
    ensures status == Ok ==>
              var ps := Meant(Read(t, 0).value, isJson); var line := LineOf(ps, r, isJson, env);
              && len <= maxLine
              && out[..len] == Limited(ps, r, isJson, env, maxLine, marker)
              && (|line| < maxLine ==> out[..len] == line)
              && (|line| == maxLine ==>
                    out[..len] == if AnyStops(ps, r, isJson, env, maxLine)
                                  then Shortened(line, maxLine, marker, NewlineBytes(env.crlf))
                                  else line)
              && (Plain(ps) ==> out[..len] == Truncated(line, maxLine, marker, NewlineBytes(env.crlf)))
  {
    hide Read, Expand, LineOf, InsertFields, ActionsOk, Truncated, Shortened, NewlineBytes, Plain, Limited, AnyStops;
    hide LongTail;
    var f;
    status, f := Compile(t, isJson);
    len := 0;
    if status == Ok {
      LimitedMeans(Meant(Read(t, 0).value, isJson), r, isJson, env, maxLine, marker);
      var ok;
      ok, len := Render(f, r, env, maxLine, marker, out);
    }
  }

  /** What that line is: for a text template the one read directly, and for json that one
      too when the record has no fields. */
  lemma MeantLine(t: seq<byte>, isJson: bool, r: Record, env: Env)
    requires Read(t, 0).Some? && (isJson ==> r.fieldCount == 0 || r.wire.None?)
    ensures var ps := Read(t, 0).value;
            && LineOf(Meant(ps, isJson), r, isJson, env) == LineOf(ps, r, isJson, env)
            && (Plain(ps) ==> Plain(Meant(ps, isJson)))
  {
    hide Read, LineOf, InsertFields;
    var ps := Read(t, 0).value;
    if isJson { SpliceIsNeutral(ps, r, isJson, env); }
    if Plain(ps) { InsertKeepsPlain(ps); }
  }

  /** %.128m */
  const CUT_TEXT: seq<byte> := [0x25, 0x2E, 0x31, 0x32, 0x38, 0x6D]

  lemma CutTextMod(t: seq<byte>, i: nat)
    requires i + 4 < |t| && t[i] == 0x2E && t[i + 1] == 0x31 && t[i + 2] == 0x32 && t[i + 3] == 0x38 && t[i + 4] == 0x6D
    ensures ModAt(t, i) == (Mod(false, 0, true, 128), i + 4)
  {
    assert Number(t, i, 0) == (0, i);
    assert Number(t, i + 4, 128) == (128, i + 4);
    assert Number(t, i + 3, 12) == (128, i + 4);
    assert Number(t, i + 2, 1) == (128, i + 4);
    assert Number(t, i + 1, 0) == (128, i + 4);
  }

  lemma CutTextName(t: seq<byte>, i: nat)
    requires i + 1 == |t| && t[i] == 0x6D
    ensures NameOf(t, i) == Some((Text, 1))
  {
    assert !NameAt(t, i, "n") by { assert t[i + 0] != "n"[0] as int; }
    assert LongName(t, i).None?;
  }

  lemma CutTextReads(lit: seq<byte>)
    ensures Read(lit + CUT_TEXT, |lit|) == Some([Value(Text, Mod(false, 0, true, 128))])
  {
    hide Read;
    CutTextAt(lit + CUT_TEXT, |lit|);
  }

  lemma CutTextAt(t: seq<byte>, i: nat)
    requires i + 6 == |t| && t[i..] == CUT_TEXT
    ensures Read(t, i) == Some([Value(Text, Mod(false, 0, true, 128))])
  {
    var c := t[i..];
    assert c[0] == t[i] && c[1] == t[i + 1] && c[2] == t[i + 2];
    assert c[3] == t[i + 3] && c[4] == t[i + 4] && c[5] == t[i + 5];
    CutTextMod(t, i + 1);
    CutTextName(t, i + 5);
    hide ModAt, NameOf;
    assert PercentAt(t, i) == Placeholder(Text, Mod(false, 0, true, 128), 6);
    ReadValue(t, i);
    ReadEnd(t);
    var v := Value(Text, Mod(false, 0, true, 128));
    assert [v] + [] == [v];
  }

  lemma ReadEnd(t: seq<byte>)
    ensures Read(t, |t|) == Some([])
  {
  }

  /** A line that fits and is cut all the same: literal text, then a message cut by its
      precision so that it ends exactly at the limit (128 bytes, `%.128m`, a message of 200
      bytes and the limit 256, for instance). */
  lemma ExactFitIsCut(lit: seq<byte>, r: Record, env: Env, max: nat, marker: seq<byte>)
    requires PERCENT !in lit && |lit| + 128 == max && |r.text| > 128 && r.text[127] != 10 && !env.escapeInjection
    ensures Read(lit + CUT_TEXT, 0).Some?
    ensures var ps := Read(lit + CUT_TEXT, 0).value; var line := LineOf(ps, r, false, env);
            line == lit + r.text[..128] && |line| == max && Limited(ps, r, false, env, max, marker) != line
  {
    var v := Value(Text, Mod(false, 0, true, 128));
    var ps := ByteSeq(lit) + [v];
    hide Read, ByteSeq, Limited, LineOf, AnyStops, Shortened;
    CutTemplateReads(lit);
    CutLine(lit, v, r, env, max);
    LimitedMeans(ps, r, false, env, max, marker);
    CutEndsOtherwise(lit + r.text[..128], max, marker, env.crlf);
  }

  lemma CutTemplateReads(lit: seq<byte>)
    requires PERCENT !in lit
    ensures Read(lit + CUT_TEXT, 0) == Some(ByteSeq(lit) + [Value(Text, Mod(false, 0, true, 128))])
  {
    hide Read, ByteSeq;
    CutTextReads(lit);
    LiteralReads(lit, CUT_TEXT, 0);
    assert lit[0..] == lit;
  }

  lemma CutLine(lit: seq<byte>, v: Piece, r: Record, env: Env, max: nat)
    requires v == Value(Text, Mod(false, 0, true, 128))
    requires |lit| + 128 == max && |r.text| > 128 && !env.escapeInjection
    ensures var ps := ByteSeq(lit) + [v];
            LineOf(ps, r, false, env) == lit + r.text[..128] && AnyStops(ps, r, false, env, max)
  {
    assert PieceText(v, r, false, env) == r.text[..128] && StopsAt(v, |lit|, r, false, env, max);
    hide ByteSeq, LineOf, AnyStops, PieceText, StopsAt;
    OneValue(v, r, false, env);
    LineConcat(ByteSeq(lit), [v], r, false, env);
    LineOfBytes(lit, r, false, env);
    StopsAppend(ByteSeq(lit), v, r, false, env, max);
  }

  lemma CutEndsOtherwise(line: seq<byte>, max: nat, marker: seq<byte>, crlf: bool)
    requires |line| == max > 0 && line[max - 1] != 10
    ensures Shortened(line, max, marker, NewlineBytes(crlf)) != line
  {
    var out := Shortened(line, max, marker, NewlineBytes(crlf));
    assert out[|out| - 1] == 10;
  }

  /** %128m */
  const PAD_TEXT: seq<byte> := [0x25, 0x31, 0x32, 0x38, 0x6D]

  lemma PadTextMod(t: seq<byte>, i: nat)
    requires i + 3 < |t| && t[i] == 0x31 && t[i + 1] == 0x32 && t[i + 2] == 0x38 && t[i + 3] == 0x6D
    ensures ModAt(t, i) == (Mod(false, 128, false, 0), i + 3)
  {
    assert Number(t, i + 3, 128) == (128, i + 3);
    assert Number(t, i + 2, 12) == (128, i + 3);
    assert Number(t, i + 1, 1) == (128, i + 3);
    assert Number(t, i, 0) == (128, i + 3);
  }

  lemma PadTextAt(t: seq<byte>, i: nat)
    requires i + 5 == |t| && t[i..] == PAD_TEXT
    ensures Read(t, i) == Some([Value(Text, Mod(false, 128, false, 0))])
  {
    var c := t[i..];
    assert c[0] == t[i] && c[1] == t[i + 1] && c[2] == t[i + 2] && c[3] == t[i + 3] && c[4] == t[i + 4];
    PadTextMod(t, i + 1);
    CutTextName(t, i + 4);
    hide ModAt, NameOf;
    assert PercentAt(t, i) == Placeholder(Text, Mod(false, 128, false, 0), 5);
    ReadValue(t, i);
    ReadEnd(t);
    var v := Value(Text, Mod(false, 128, false, 0));
    assert [v] + [] == [v];
  }

  lemma PadTemplateReads(lit: seq<byte>)
    requires PERCENT !in lit
    ensures Read(lit + PAD_TEXT, 0) == Some(ByteSeq(lit) + [Value(Text, Mod(false, 128, false, 0))])
  {
    hide Read, ByteSeq;
    PadTextAt(lit + PAD_TEXT, |lit|);
    LiteralReads(lit, PAD_TEXT, 0);
    assert lit[0..] == lit;
  }

  /** A line that is too long and comes out short and unmarked: literal text, then a message
      whose padding to 128 bytes would pass the limit although the message itself fits (200
      bytes, `%128m`, a message of 10 bytes and the limit 256, for instance). */
  lemma TooLongUnmarked(lit: seq<byte>, r: Record, env: Env, max: nat, marker: seq<byte>)
    requires PERCENT !in lit && |lit| + |r.text| < max < |lit| + 128 && !env.escapeInjection
    ensures Read(lit + PAD_TEXT, 0).Some?
    ensures var ps := Read(lit + PAD_TEXT, 0).value; var line := LineOf(ps, r, false, env);
            && |line| > max && Limited(ps, r, false, env, max, marker) == lit + r.text
            && (max > |marker| + |NewlineBytes(env.crlf)| ==>
                  Limited(ps, r, false, env, max, marker) != Truncated(line, max, marker, NewlineBytes(env.crlf)))
  {
    var v := Value(Text, Mod(false, 128, false, 0));
    hide Read, ByteSeq, LineOf, Limited, Truncated, NewlineBytes;
    PadTemplateReads(lit);
    PadLine(lit, r, env);
    PadIsDropped(lit, r, env, max, marker);
    if max > |marker| + |NewlineBytes(env.crlf)| {
      TruncatedFits(LineOf(ByteSeq(lit) + [v], r, false, env), max, marker, NewlineBytes(env.crlf));
    }
  }

  lemma LineOfPieces(lit: seq<byte>, v: Piece, r: Record, env: Env)
    ensures LineOf(ByteSeq(lit) + [v], r, false, env) == lit + PieceText(v, r, false, env)
  {
    hide LineOf, ByteSeq, PieceText;
    OneValue(v, r, false, env);
    LineConcat(ByteSeq(lit), [v], r, false, env);
    LineOfBytes(lit, r, false, env);
  }

  lemma PadTexts(at: nat, r: Record, env: Env, max: nat)
    requires at + |r.text| < max < at + 128 && !env.escapeInjection
    ensures var v, short := Value(Text, Mod(false, 128, false, 0)), Value(Text, NO_MOD);
            && PieceText(short, r, false, env) == r.text
            && Slim(v, at, r, false, env, max) == short
  {
  }

  lemma PaddedText(r: Record, env: Env)
    requires |r.text| < 128 && !env.escapeInjection
    ensures |PieceText(Value(Text, Mod(false, 128, false, 0)), r, false, env)| == 128
  {
  }

  lemma PadLine(lit: seq<byte>, r: Record, env: Env)
    requires |r.text| < 128 && !env.escapeInjection
    ensures |LineOf(ByteSeq(lit) + [Value(Text, Mod(false, 128, false, 0))], r, false, env)| == |lit| + 128
  {
    PaddedText(r, env);
    hide LineOf, ByteSeq, PieceText;
    LineOfPieces(lit, Value(Text, Mod(false, 128, false, 0)), r, env);
  }

  lemma PadIsDropped(lit: seq<byte>, r: Record, env: Env, max: nat, marker: seq<byte>)
    requires |lit| + |r.text| < max < |lit| + 128 && !env.escapeInjection
    ensures Limited(ByteSeq(lit) + [Value(Text, Mod(false, 128, false, 0))], r, false, env, max, marker) == lit + r.text
  {
    var v, short := Value(Text, Mod(false, 128, false, 0)), Value(Text, NO_MOD);
    PadTexts(|lit|, r, env, max);
    hide LineOf, ByteSeq, PieceText, Slimmed, Slim, AnyStops, Shortened;
    SlimmedBytes([], lit, r, false, env, max);
    NothingSlimmed(r, env, max);
    assert [] + ByteSeq(lit) == ByteSeq(lit);
    LineOfBytes(lit, r, false, env);
    SlimmedAppend(ByteSeq(lit), v, r, false, env, max);
    LineOfPieces(lit, short, r, env);
  }

  lemma NothingSlimmed(r: Record, env: Env, max: nat)
    ensures Slimmed([], r, false, env, max) == []
  {
  }

  lemma EscapedEnds(s: seq<byte>)
    ensures Escaped(s[..0]) == [] && s[..|s|] == s
  {
  }

  lemma EscapedGrows(s: seq<byte>, i: nat)
    requires i < |s|
    ensures Escaped(s[..i + 1]) == Escaped(s[..i]) + Escape(s[i])
  {
    assert s[..i + 1] == s[..i] + [s[i]];
    EscapedAppend(s[..i], s[i]);
  }

  lemma VisiblesEnds(s: seq<byte>)
    ensures Visibles(s[..0]) == [] && s[..|s|] == s
  {
  }

  lemma {:induction false} VisiblesAppend(s: seq<byte>, c: byte)
    ensures Visibles(s + [c]) == Visibles(s) + Visible(c)
  {
    hide Visible;
    if s == [] {
      assert (s + [c])[1..] == [];
    } else {
      VisiblesAppend(s[1..], c);
      assert (s + [c])[1..] == s[1..] + [c];
    }
  }

  lemma VisiblesGrows(s: seq<byte>, i: nat)
    requires i < |s|
    ensures Visibles(s[..i + 1]) == Visibles(s[..i]) + Visible(s[i])
  {
    assert s[..i + 1] == s[..i] + [s[i]];
    VisiblesAppend(s[..i], s[i]);
  }

  lemma SpanDone(wire: seq<byte>, off: nat, n: nat, done: seq<byte>, text: seq<byte>, more: seq<byte>)
    requires off + n <= |wire|
    ensures wire[off..][n..] == wire[off + n..] && done + (text + more) == (done + text) + more
  {
  }

  lemma FieldsStep(wire: seq<byte>, n: nat, json: bool, env: Env, first: bool)
    requires n > 0
    ensures FirstSpan(wire).None? ==> FieldsFrom(wire, n, json, env, first) == []
    ensures FirstSpan(wire).Some? ==>
              var s := FirstSpan(wire).value;
              6 + |s.key| <= SpanLen(s) <= |wire|
              && FieldsFrom(wire, n, json, env, first)
                 == FieldText(s, wire[6 + |s.key|..], json, env, first)
                    + FieldsFrom(wire[SpanLen(s)..], n - 1, json, env, false)
  {
    hide FieldText;
  }

  lemma NoFieldsLeft(wire: seq<byte>, json: bool, env: Env, first: bool)
    ensures FieldsFrom(wire, 0, json, env, first) == []
  {
  }

  lemma LevelTagOnly(level: int)
    ensures !(0 <= level <= 5) ==> LevelTag(level) == []
  {
  }

  lemma NoText(json: bool)
    ensures TextOf([], json, false) == []
  {
  }
}
