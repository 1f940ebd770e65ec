/** The drain after the exit flag over a ring that may overwrite its oldest records. */
module LogDrain {
  import opened ConsumerFlush
  import opened LogFlush

  // ---------------------------------------------------------------- the last get

  /** Thread c, already leaving, entered get with event i and was in it up to event j, with
      which get ended and had found nothing. */
  ghost predicate EmptyGet(tr: seq<Shared>, acts: seq<Event>, c: nat, i: nat, j: nat) {
    && |tr| == |acts| + 1 && i < j < |acts|
    && c in tr[i].leaving && c in tr[i].loops && tr[i].loops[c] == Top
    && (forall x | i < x <= j :: c in tr[x].loops && tr[x].loops[c] == InGet)
    && acts[j].Dequeue? && acts[j].c == c && !acts[j].found && acts[j].done
  }

  lemma SteppedShape(s: Shared, b: nat, branch: bool)
    requires b in s.loops
    ensures var t := Stepped(s, b, branch);
            && b in t.loops && t.loops == s.loops[b := t.loops[b]]
            && (t.leaving == s.leaving || t.leaving == s.leaving + {b})
            && t.log == s.log && t.fates == s.fates && t.n == s.n
  {
    assert s.loops == s.loops[b := s.loops[b]];
  }

  /** What an event can do to thread c. */
  lemma EventOn(s: Shared, a: Event, t: Shared, c: nat)
    requires Happens(s, a, t) && c in t.loops
    ensures c in s.loops && s.leaving <= t.leaving && t.n == s.n
    ensures t.loops[c] != s.loops[c] && s.loops[c] == InGet ==>
              a.Dequeue? && a.c == c && (t.loops[c] == ReadRequest || t.loops[c].Hand?) && t.leaving == s.leaving
              && (t.loops[c] == ReadRequest ==> !a.found && a.done)
    ensures t.loops[c] != s.loops[c] && s.loops[c] != InGet ==>
              a.Thread? && a.c == c && t == Stepped(s, c, a.branch)
    ensures c in t.leaving && c !in s.leaving ==> s.loops[c] == Top == t.loops[c]
  {
    if a.Thread? && a.c in s.loops { SteppedShape(s, a.c, a.branch); }
  }

  lemma {:induction false} GetBegan(tr: seq<Shared>, acts: seq<Event>, t: nat, c: nat) returns (i: nat)
    requires History(tr, acts) && t < |tr| && c in tr[t].loops && tr[t].loops[c] == InGet && c in tr[t].leaving
    ensures i < t && c in tr[i].leaving && c in tr[i].loops && tr[i].loops[c] == Top
    ensures forall x | i < x <= t :: c in tr[x].loops && tr[x].loops[c] == InGet
  {
    hide Happens;
    assert t > 0;
    var s, a := tr[t - 1], acts[t - 1];
    assert Happens(s, a, tr[t]);
    EventOn(s, a, tr[t], c);
    if s.loops[c] == InGet { i := GetBegan(tr, acts, t - 1, c); }
    else { i := t - 1; }
  }

  predicate Late(st: Loop) { st.ReadRequest? || st.UsedTail? || st.UsedHead? || st.Ack? || st.Stopped? }

  lemma {:induction false} LateAfterEmptyGet(tr: seq<Shared>, acts: seq<Event>, t: nat, c: nat)
    returns (i: nat, j: nat)
    requires History(tr, acts) && t < |tr| && c in tr[t].loops && Late(tr[t].loops[c]) && c in tr[t].leaving
    ensures j < t && EmptyGet(tr, acts, c, i, j)
  {
    hide Happens;
    assert t > 0;
    var s, a := tr[t - 1], acts[t - 1];
    assert Happens(s, a, tr[t]);
    EventOn(s, a, tr[t], c);
    if Late(s.loops[c]) {
      i, j := LateAfterEmptyGet(tr, acts, t - 1, c);
    } else {
      i := GetBegan(tr, acts, t - 1, c);
      j := t - 1;
    }
  }

  lemma {:induction false} StoppedIsLeaving(tr: seq<Shared>, acts: seq<Event>, t: nat, c: nat)
    requires History(tr, acts) && t < |tr| && c in tr[t].loops && tr[t].loops[c] == Stopped
    ensures c in tr[t].leaving
  {
    hide Happens;
    assert t > 0;
    var s, a := tr[t - 1], acts[t - 1];
    assert Happens(s, a, tr[t]);
    EventOn(s, a, tr[t], c);
    if s.loops[c] == Stopped { StoppedIsLeaving(tr, acts, t - 1, c); }
  }

  /** A thread is stopped only after a get that it entered since it began leaving found
      nothing. */
  lemma StoppedAfterEmptyGet(tr: seq<Shared>, acts: seq<Event>, t: nat, c: nat) returns (i: nat, j: nat)
    requires History(tr, acts) && t < |tr| && c in tr[t].loops && tr[t].loops[c] == Stopped
    ensures j < t && EmptyGet(tr, acts, c, i, j)
  {
    hide History;
    StoppedIsLeaving(tr, acts, t, c);
    i, j := LateAfterEmptyGet(tr, acts, t, c);
  }

  // ---------------------------------------------------------------- nothing is left

  /** While threads drain, nothing is enqueued, and a get that finds nothing leaves the ring
      empty. */
  ghost predicate DrainsAlone(tr: seq<Shared>, acts: seq<Event>, t: nat)
    requires t <= |acts| <= |tr|
  {
    forall x | 0 <= x < t && tr[x].leaving != {} :: DrainEvent(tr[x], acts[x])
  }

  predicate DrainEvent(s: Shared, a: Event) {
    (a.Enqueue? ==> a.adds == []) && (a.Dequeue? && !a.found && a.done ==> |s.fates| + a.pads == |s.log|)
  }

  lemma EmptyLeavesNothing(s: Shared, a: Event, t: Shared)
    requires Happens(s, a, t) && DrainEvent(s, a) && a.Dequeue? && !a.found && a.done
    ensures |t.fates| == |t.log|
  {
  }

  lemma DrainKeeps(s: Shared, a: Event, t: Shared)
    requires Happens(s, a, t) && DrainEvent(s, a) && |s.fates| == |s.log|
    ensures |t.fates| == |t.log|
  {
    if a.Thread? && a.c in s.loops { SteppedShape(s, a.c, a.branch); }
  }

  lemma {:induction false} StaysEmpty(tr: seq<Shared>, acts: seq<Event>, x: nat, y: nat, t: nat, c: nat)
    requires History(tr, acts) && x <= y <= t < |tr| && DrainsAlone(tr, acts, t) && c in tr[x].leaving
    requires c in tr[y].loops && |tr[x].fates| == |tr[x].log|
    ensures c in tr[y].leaving && |tr[y].fates| == |tr[y].log|
  {
    hide Happens;
    if x < y {
      var s, a := tr[y - 1], acts[y - 1];
      assert Happens(s, a, tr[y]);
      EventOn(s, a, tr[y], c);
      StaysEmpty(tr, acts, x, y - 1, t, c);
      assert DrainEvent(s, a);
      DrainKeeps(s, a, tr[y]);
    }
  }

  lemma {:induction false} StillLeaving(tr: seq<Shared>, acts: seq<Event>, x: nat, y: nat, c: nat)
    requires History(tr, acts) && x <= y < |tr| && c in tr[x].leaving && c in tr[y].loops
    ensures c in tr[y].leaving && c in tr[x].loops
  {
    hide Happens;
    if x < y {
      assert Happens(tr[y - 1], acts[y - 1], tr[y]);
      EventOn(tr[y - 1], acts[y - 1], tr[y], c);
      StillLeaving(tr, acts, x, y - 1, c);
    }
  }

  /** Main result. When all threads have stopped, and from the moment the first of them began
      leaving nothing was enqueued and no get gave up early, every message ever enqueued was
      processed or overwritten. */
  lemma DrainProcessesAll(tr: seq<Shared>, acts: seq<Event>, t: nat)
    requires History(tr, acts) && t < |tr| && tr[t].n > 0 && DrainsAlone(tr, acts, t)
    requires forall c | c in tr[t].loops :: tr[t].loops[c] == Stopped
    ensures var s := tr[t];
            |s.fates| == |s.log| && forall i | 0 <= i < |s.log| && s.log[i] :: i in s.processed || s.fates[i] == Lost
  {
    HistoryKeeps(tr, acts, t);
    assert 0 in tr[t].loops;
    hide Kept, Happens;
    var i, j := StoppedAfterEmptyGet(tr, acts, t, 0);
    LoopsStay(tr, acts, j + 1, t, 0);
    LoopsStay(tr, acts, j, t, 0);
    StillLeaving(tr, acts, i, j, 0);
    StillLeaving(tr, acts, i, j + 1, 0);
    assert DrainEvent(tr[j], acts[j]) && Happens(tr[j], acts[j], tr[j + 1]);
    EmptyLeavesNothing(tr[j], acts[j], tr[j + 1]);
    StaysEmpty(tr, acts, j + 1, t, t, 0);
    AllServed(tr[t]);
  }

  lemma {:induction false} LoopsStay(tr: seq<Shared>, acts: seq<Event>, x: nat, y: nat, c: nat)
    requires History(tr, acts) && x <= y < |tr| && c in tr[y].loops
    ensures c in tr[x].loops
  {
    hide Happens;
    if x < y {
      assert Happens(tr[y - 1], acts[y - 1], tr[y]);
      EventOn(tr[y - 1], acts[y - 1], tr[y], c);
      LoopsStay(tr, acts, x, y - 1, c);
    }
  }

  lemma AllServed(s: Shared)
    requires Kept(s) && |s.fates| == |s.log| && forall c | c in s.loops :: s.loops[c] == Stopped
    ensures forall i | 0 <= i < |s.log| && s.log[i] :: i in s.processed || s.fates[i] == Lost
  {
    forall i | 0 <= i < |s.log| && s.log[i] ensures i in s.processed || s.fates[i] == Lost {
      assert ServedAt(i, s.log[i], s.fates[i], s.n, s.loops, s.processed);
    }
  }
}
