/** The http sink in ndjson mode: lines are coalesced into POST bodies, one attempt each. */
module HttpBatch {
  import opened Bytes
  import opened Options
  import opened JsonText

  const BODY_SIZE: nat := 0x1_0000
  const BUDGET: nat := 0xFFFF

  /** What the peer does with one POST on a live connection: no 2xx answer (send error,
      timeout, other status), or a 2xx answer, after which the connection can be reused or
      not. */
  datatype Answer = Refused | Answered(reusable: bool)

  /** One POST attempt: its body, the lines it carries, and whether it was answered 2xx. */
  datatype Post = Post(body: seq<byte>, lines: seq<seq<byte>>, accepted: bool)

  function Body(lines: seq<seq<byte>>): seq<byte> { [OPEN] + Elements(lines) + [CLOSE] }

  predicate PostOk(p: Post) {
    p.lines != [] && |p.body| <= BODY_SIZE && ReadArray(p.body) == Some(p.lines)
  }

  function LinesOf(posts: seq<Post>): seq<seq<byte>> {
    if posts == [] then [] else LinesOf(posts[..|posts| - 1]) + posts[|posts| - 1].lines
  }

  /** The number of events in POSTs that were answered 2xx. */
  function Accepted(posts: seq<Post>): nat {
    if posts == [] then 0
    else Accepted(posts[..|posts| - 1]) + if posts[|posts| - 1].accepted then |posts[|posts| - 1].lines| else 0
  }

  function Select(lines: seq<seq<byte>>, keep: seq<bool>): seq<seq<byte>>
    requires |keep| <= |lines|
  {
    if keep == [] then []
    else Select(lines, keep[..|keep| - 1]) + if keep[|keep| - 1] then [lines[|keep| - 1]] else []
  }

  lemma LinesAppend(posts: seq<Post>, p: Post)
    ensures LinesOf(posts + [p]) == LinesOf(posts) + p.lines
    ensures Accepted(posts + [p]) == Accepted(posts) + if p.accepted then |p.lines| else 0
  {
    assert (posts + [p])[..|posts|] == posts;
  }

  lemma SelectAppend(lines: seq<seq<byte>>, keep: seq<bool>, k: bool)
    requires |keep| < |lines|
    ensures Select(lines, keep + [k]) == if k then Select(lines, keep) + [lines[|keep|]] else Select(lines, keep)
  {
    assert (keep + [k])[..|keep|] == keep;
    assert Select(lines, keep) + [] == Select(lines, keep);
  }

  /** The bytes a line adds to a body that already holds some (`more`) or none. */
  function Cost(line: seq<byte>, more: bool): nat { |Element(line)| + if more then 1 else 0 }

  /** The test that leaves a line out: brackets and element exceed the budget. The element is
      counted with a comma when the body already holds lines, so a line that fits alone but
      not with a comma is left out exactly then. */
  predicate Taken(line: seq<byte>, more: bool) { |Element(line)| + (if more then 4 else 3) <= 0xFFFF }

  /** Which lines of the batch went into a body is settled by the lines alone: the body is
      empty at the test exactly until the first line is taken. */
  predicate Decided(lines: seq<seq<byte>>, keep: seq<bool>) {
    |keep| <= |lines| && forall i | 0 <= i < |keep| :: keep[i] == Taken(lines[i], true in keep[..i])
  }

  lemma DecidedGrows(lines: seq<seq<byte>>, keep: seq<bool>, k: bool)
    requires Decided(lines, keep) && |keep| < |lines| && k == Taken(lines[|keep|], true in keep)
    ensures Decided(lines, keep + [k])
  {
    hide Taken;
    var all := keep + [k];
    assert all[..|keep|] == keep;
    forall i | 0 <= i < |keep| ensures all[..i] == keep[..i] && all[i] == keep[i] {}
  }

  lemma TakenGrows(keep: seq<bool>, k: bool)
    ensures true in keep + [k] <==> true in keep || k
  {
  }

  lemma EscapedSplits(line: seq<byte>, i: nat)
    requires i < |line|
    ensures Escaped(line[..i + 1]) == Escaped(line[..i]) + Escape(line[i])
    ensures |Escaped(line[..i + 1])| <= |Escaped(line)|
  {
    assert line[..i + 1] == line[..i] + [line[i]];
    EscapedAppend(line[..i], line[i]);
    EscapedPrefix(line, i + 1);
  }

  lemma {:induction false} EscapedPrefix(line: seq<byte>, i: nat)
    requires i <= |line|
    ensures |Escaped(line[..i])| <= |Escaped(line)|
    decreases |line| - i
  {
    if i < |line| {
      EscapedPrefix(line, i + 1);
      assert line[..i + 1] == line[..i] + [line[i]];
      EscapedAppend(line[..i], line[i]);
    } else {
      assert line[..i] == line;
    }
  }

  lemma NothingEscaped(line: seq<byte>)
    ensures Escaped(line[..0]) == [] && line[..|line|] == line
  {
  }

  lemma PostIsOk(lines: seq<seq<byte>>, body: seq<byte>, accepted: bool)
    requires lines != [] && 2 + |Elements(lines)| <= BODY_SIZE && body == Body(lines)
    ensures PostOk(Post(body, lines, accepted))
  {
    hide Elements, ReadArray;
    BodyReadsBack(lines);
  }

  // ---------------------------------------------------------------- one batch

  /** What a batch comes to. `sent` are its POSTs and `keep` tells for each line it looked
      at whether it went into a body. All POSTs but the last were answered 2xx; if the last
      was too, every line was looked at and the result is the number of events in them;
      otherwise it is the number of events in the earlier ones, or -1 for none. */
  ghost predicate Outcome(lines: seq<seq<byte>>, keep: seq<bool>, sent: seq<Post>, result: int) {
    && |keep| <= |lines| && LinesOf(sent) == Select(lines, keep)
    && Decided(lines, keep)
    && (forall p | p in sent :: PostOk(p))
    && (forall i | 0 <= i < |sent| - 1 :: sent[i].accepted)
    && if sent == [] || sent[|sent| - 1].accepted
       then |keep| == |lines| && result == Accepted(sent)
       else result == if Accepted(sent) > 0 then Accepted(sent) else -1
  }

  /** A body with the lines `ls` and `line` behind them would not have fitted. */
  predicate Crowded(ls: seq<seq<byte>>, line: seq<byte>) { |Elements(ls)| + |Element(line)| + 2 > 0xFFFF }

  /** A POST is followed by another only when the first line of the next one did not fit
      behind its own. */
  predicate Coalesced(sent: seq<Post>) {
    forall i, j | 0 <= i && j == i + 1 < |sent| :: sent[j].lines != [] && Crowded(sent[i].lines, sent[j].lines[0])
  }

  predicate Packing(sent: seq<Post>, pending: seq<seq<byte>>) {
    && Coalesced(sent) && (sent != [] && pending != [] ==> Crowded(sent[|sent| - 1].lines, pending[0]))
  }

  lemma PackingStarts()
    ensures Packing([], []) && Coalesced([])
  {
  }

  lemma PackingIs(sent: seq<Post>)
    requires Packing(sent, [])
    ensures Coalesced(sent)
  {
  }

  /** A line joins the body, perhaps after the POST `p` of the lines before it. */
  lemma PackingGrows(sent: seq<Post>, pending: seq<seq<byte>>, line: seq<byte>)
    requires Packing(sent, pending)
    requires pending == [] && sent != [] ==> Crowded(sent[|sent| - 1].lines, line)
    ensures Packing(sent, pending + [line])
  {
    hide Crowded, Coalesced;
  }

  lemma PackingPosts(sent: seq<Post>, p: Post)
    requires Packing(sent, p.lines) && p.lines != []
    ensures Packing(sent + [p], []) && Coalesced(sent + [p])
  {
    hide Crowded;
  }

  /** Where the loop stands: all POSTs so far were answered 2xx. */
  ghost predicate Progress(lines: seq<seq<byte>>, keep: seq<bool>, sent: seq<Post>, pending: seq<seq<byte>>,
                           done: nat) {
    && |keep| <= |lines| && LinesOf(sent) + pending == Select(lines, keep) && done == |pending| + Accepted(sent)
    && Decided(lines, keep)
    && (forall p | p in sent :: PostOk(p) && p.accepted)
  }

  lemma Begins(lines: seq<seq<byte>>)
    ensures Progress(lines, [], [], [], 0)
  {
  }

  lemma Skips(lines: seq<seq<byte>>, keep: seq<bool>, sent: seq<Post>, pending: seq<seq<byte>>, done: nat)
    requires Progress(lines, keep, sent, pending, done) && |keep| < |lines| && !Taken(lines[|keep|], true in keep)
    ensures Progress(lines, keep + [false], sent, pending, done)
  {
    DecidedGrows(lines, keep, false);
    hide Decided, Select, LinesOf, Accepted, PostOk;
    SelectAppend(lines, keep, false);
  }

  lemma Assoc(a: seq<seq<byte>>, b: seq<seq<byte>>, c: seq<seq<byte>>)
    ensures a + (b + c) == a + b + c
  {
  }

  lemma Adds(lines: seq<seq<byte>>, keep: seq<bool>, sent: seq<Post>, pending: seq<seq<byte>>, done: nat)
    requires Progress(lines, keep, sent, pending, done) && |keep| < |lines| && Taken(lines[|keep|], true in keep)
    ensures Progress(lines, keep + [true], sent, pending + [lines[|keep|]], done + 1)
  {
    DecidedGrows(lines, keep, true);
    hide Decided, Select, LinesOf, Accepted, PostOk;
    var a, l := LinesOf(sent), [lines[|keep|]];
    SelectAppend(lines, keep, true);
    Assoc(a, pending, l);
  }

  lemma Flushes(lines: seq<seq<byte>>, keep: seq<bool>, sent: seq<Post>, pending: seq<seq<byte>>, done: nat, p: Post)
    requires Progress(lines, keep, sent, pending, done) && p.lines == pending && PostOk(p)
    ensures p.accepted ==> Progress(lines, keep, sent + [p], [], done)
    ensures !p.accepted ==>
              done >= |pending|
              && Outcome(lines, keep, sent + [p], if done > |pending| then done - |pending| else -1)
  {
    hide Decided, Select, LinesOf, Accepted, PostOk;
    LinesAppend(sent, p);
    assert LinesOf(sent + [p]) + [] == LinesOf(sent) + pending;
  }

  lemma Finishes(lines: seq<seq<byte>>, keep: seq<bool>, sent: seq<Post>, done: nat)
    requires Progress(lines, keep, sent, [], done) && |keep| == |lines|
    ensures Outcome(lines, keep, sent, done)
  {
    hide Decided, Select, LinesOf, Accepted, PostOk;
    assert LinesOf(sent) + [] == LinesOf(sent);
  }

  class Sink {
    const buf: array<byte>
    var bodyLen: nat
    var bodyEvents: nat
    var connected: bool
    /** The lines in the body, and every POST attempted so far. */
    ghost var pending: seq<seq<byte>>
    ghost var posts: seq<Post>

    ghost predicate Valid()
      reads this, buf
    {
      && buf.Length == BODY_SIZE && bodyEvents == |pending| && 1 <= bodyLen <= BUDGET
      && buf[1..bodyLen] == Elements(pending)
    }

    constructor ()
      ensures Valid() && pending == [] && posts == [] && !connected && fresh(buf)
    {
      buf := new byte[BODY_SIZE];
      bodyLen, bodyEvents, connected, pending, posts := 1, 0, false, [], [];
    }

    /** http_json_element_len. */
    method ElementLen(line: seq<byte>) returns (len: nat)
      requires Valid()
      ensures len == Cost(line, bodyLen > 1)
    {
      len := 2;
      var i := 0;
      while i < |line|
        invariant 0 <= i <= |line| && len == 2 + |Escaped(line[..i])|
      {
        EscapedSplits(line, i);
        var c := line[i];
        if c == QUOTE || c == BACKSLASH || c == 10 || c == 13 || c == 9 || c == 8 || c == 12 {
          len := len + 2;
        } else {
          len := len + if c < 0x20 then 6 else 1;
        }
        i := i + 1;
      }
      assert line[..|line|] == line;
      if bodyLen > 1 {
        len := len + 1;
      }
    }

    method Put(bs: seq<byte>)
      requires buf.Length == BODY_SIZE && 1 <= bodyLen && bodyLen + |bs| <= BODY_SIZE
      modifies this`bodyLen, buf
      ensures bodyLen == old(bodyLen) + |bs| && buf[1..bodyLen] == old(buf[1..bodyLen]) + bs
    {
      SpliceUpto(buf[..], bodyLen, bs);
      CopyInto(buf, bodyLen, bs);
      assert buf[1..bodyLen + |bs|] == buf[..][..bodyLen + |bs|][1..];
      bodyLen := bodyLen + |bs|;
    }

    method PutEscape(c: byte)
      requires buf.Length == BODY_SIZE && 1 <= bodyLen && bodyLen + |Escape(c)| <= BODY_SIZE
      modifies this`bodyLen, buf
      ensures bodyLen == old(bodyLen) + |Escape(c)| && buf[1..bodyLen] == old(buf[1..bodyLen]) + Escape(c)
    {
      if c == QUOTE {
        Put([BACKSLASH, QUOTE]);
      } else if c == BACKSLASH {
        Put([BACKSLASH, BACKSLASH]);
      } else if c == 8 {
        Put([BACKSLASH, 0x62]);
      } else if c == 12 {
        Put([BACKSLASH, 0x66]);
      } else if c == 10 {
        Put([BACKSLASH, 0x6E]);
      } else if c == 13 {
        Put([BACKSLASH, 0x72]);
      } else if c == 9 {
        Put([BACKSLASH, 0x74]);
      } else if c < 0x20 {
        Put([BACKSLASH, 0x75, 0x30, 0x30, Hex(c / 16), Hex(c % 16)]);
      } else {
        Put([c]);
      }
    }

    /** http_json_escape_append. */
    method EscapeAppend(line: seq<byte>)
      requires buf.Length == BODY_SIZE && 1 <= bodyLen && bodyLen + |Escaped(line)| <= BODY_SIZE
      modifies this`bodyLen, buf
      ensures bodyLen == old(bodyLen) + |Escaped(line)| && buf[1..bodyLen] == old(buf[1..bodyLen]) + Escaped(line)
    {
      hide Escaped, Escape;
      ghost var before := buf[1..bodyLen];
      NothingEscaped(line);
      var i := 0;
      while i < |line|
        invariant 0 <= i <= |line| && bodyLen == old(bodyLen) + |Escaped(line[..i])|
        invariant 1 <= bodyLen <= BODY_SIZE
        invariant buf[1..bodyLen] == before + Escaped(line[..i])
      {
        EscapedSplits(line, i);
        PutEscape(line[i]);
        i := i + 1;
      }
    }

    /** The comma, the quotes and the escaped line. */
    method Append(line: seq<byte>)
      requires Valid() && bodyLen + Cost(line, bodyLen > 1) <= BUDGET
      modifies this`bodyLen, this`bodyEvents, this`pending, buf
      ensures Valid() && pending == old(pending) + [line]
    {
      hide Escaped, Elements;
      ghost var before := buf[1..bodyLen];
      ElementsAppend(pending, line);
      HasElements(pending);
      if bodyLen > 1 {
        Put([COMMA]);
      }
      Put([QUOTE]);
      EscapeAppend(line);
      Put([QUOTE]);
      ghost var comma := if pending == [] then [] else [COMMA];
      Grouped(before, comma, Escaped(line), buf[1..bodyLen]);
      bodyEvents := bodyEvents + 1;
      pending := pending + [line];
    }

    /** http_flush_post: on failure the pending events leave `done`. */
    method FlushPost(done: nat, answer: Answer) returns (ok: bool, done': nat)
      requires Valid() && bodyEvents <= done
      modifies this`bodyLen, this`bodyEvents, this`connected, this`pending, this`posts, buf
      ensures Valid() && pending == []
      ensures old(pending) == [] ==> ok && done' == done && posts == old(posts) && connected == old(connected)
      ensures old(pending) != [] ==>
                && ok == (old(connected) && answer.Answered?)
                && done' == (if ok then done else done - |old(pending)|)
                && connected == (ok && answer.reusable)
                && posts == old(posts) + [Post(Body(old(pending)), old(pending), ok)]
                && PostOk(Post(Body(old(pending)), old(pending), ok))
    {
      hide Elements, PostOk;
      done' := done;
      if bodyEvents == 0 {
        return true, done;
      }
      buf[0] := OPEN;
      buf[bodyLen] := CLOSE;
      // without a connection the send fails
      ok := connected && answer.Answered?;
      SentBody(buf[..bodyLen + 1], Elements(pending));
      PostIsOk(pending, buf[..bodyLen + 1], ok);
      posts := posts + [Post(buf[..bodyLen + 1], pending, ok)];
      if !ok {
        connected := false;
        done' := done - bodyEvents;
      } else if !answer.reusable {
        connected := false;
      }
      bodyLen, bodyEvents, pending := 1, 0, [];
      NoElements();
    }

    /** http_emit_batch. */
    method EmitBatch(lines: seq<seq<byte>>, reconnects: bool, answers: nat -> Answer)
      returns (result: int, ghost keep: seq<bool>)
      requires Valid() && pending == []
      modifies this`bodyLen, this`bodyEvents, this`connected, this`pending, this`posts, buf
      ensures Valid() && pending == [] && old(posts) <= posts
      ensures !old(connected) && !reconnects ==> result == 0 && posts == old(posts)
      ensures old(connected) || reconnects ==> Outcome(lines, keep, posts[|old(posts)|..], result)
      ensures Coalesced(posts[|old(posts)|..])
    {
      hide Elements, PostOk, Progress, Outcome, Body, Element, Select, Decided, Coalesced, Crowded, Packing;
      keep := [];
      PackingStarts();
      if !connected {
        if !reconnects {
          assert posts[|posts|..] == [];
          return 0, [];
        }
        connected := true;
      }
      var done: nat, i, flushes := 0, 0, 0;
      ghost var first, sent: seq<Post> := |posts|, [];
      Begins(lines);
      while i < |lines|
        invariant Valid() && 0 <= i == |keep| <= |lines| && posts == old(posts) + sent
        invariant bodyEvents <= done && Progress(lines, keep, sent, pending, done)
        invariant pending != [] <==> true in keep
        invariant Packing(sent, pending) && (sent != [] ==> pending != [])
      {
        var line := lines[i];
        var need := ElementLen(line);
        HasElements(pending);
        if 2 + need + 1 > BUDGET {
          Skips(lines, keep, sent, pending, done);
          TakenGrows(keep, false);
          keep := keep + [false];
          i := i + 1;
          continue;
        }
        if bodyLen + need > BUDGET {
          ghost var was, before := pending, done;
          DoesNotFit(was, line, bodyLen, need);
          var ok;
          ok, done := FlushPost(done, answers(flushes));
          flushes := flushes + 1;
          ghost var last := Post(Body(was), was, ok);
          Flushes(lines, keep, sent, was, before, last);
          PackingPosts(sent, last);
          sent := sent + [last];
          if !ok {
            assert posts[first..] == sent;
            return if done > 0 then done else -1, keep;
          }
          NoElements();
          need := ElementLen(line);
        }
        PackingGrows(sent, pending, line);
        Append(line);
        Adds(lines, keep, sent, pending[..|pending| - 1], done);
        TakenGrows(keep, true);
        keep := keep + [true];
        done := done + 1;
        i := i + 1;
      }
      ghost var was, before := pending, done;
      var ok;
      ok, done := FlushPost(done, answers(flushes));
      if was != [] {
        ghost var last := Post(Body(was), was, ok);
        Flushes(lines, keep, sent, was, before, last);
        PackingPosts(sent, last);
        sent := sent + [last];
      }
      assert posts[first..] == sent;
      if was == [] { PackingIs(sent); }
      if ok {
        Finishes(lines, keep, sent, done);
        return done, keep;
      }
      result := if done > 0 then done else -1;
    }
  }

  lemma HasElements(lines: seq<seq<byte>>)
    ensures |Elements(lines)| == 0 <==> lines == []
  {
    if lines != [] { ElementsStart(lines); }
  }

  lemma DoesNotFit(pending: seq<seq<byte>>, line: seq<byte>, len: nat, need: nat)
    requires len == 1 + |Elements(pending)| && need == Cost(line, pending != []) && len + need > BUDGET
    ensures pending != [] ==> Crowded(pending, line)
  {
  }

  lemma NoElements()
    ensures Elements([]) == []
  {
  }

  lemma Grouped(before: seq<byte>, comma: seq<byte>, escaped: seq<byte>, after: seq<byte>)
    requires after == before + comma + [QUOTE] + escaped + [QUOTE]
    ensures after == before + comma + ([QUOTE] + (escaped + [QUOTE]))
    ensures before == [] && comma == [] ==> after == [QUOTE] + (escaped + [QUOTE])
  {
  }

  lemma SentBody(sent: seq<byte>, elements: seq<byte>)
    requires |sent| >= 2 && sent[0] == OPEN && sent[|sent| - 1] == CLOSE && sent[1..|sent| - 1] == elements
    ensures sent == [OPEN] + elements + [CLOSE]
  {
  }
}
