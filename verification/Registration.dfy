/** Concurrent category registration, one step per slot examined: any number of threads run
    hpu_registry_lookup, which searches without the lock, searches again under it, writes
    the new slot and then publishes it by bumping the count. */
module Registration {
  import opened Options

  datatype Thread =
    | Idle
    | LoadCount(name: string)
    | Search(name: string, count: nat, i: nat)
    | Acquire(name: string)
    | LoadAgain(name: string)
    | SearchAgain(name: string, count: nat, i: nat)
    | Write(name: string, at: nat)
    | Publish(name: string, at: nat)
    | Release(name: string, result: Option<nat>)
    | Done(name: string, result: Option<nat>)

  /** `slots` is the fixed table; only the first `count` slots are published. */
  datatype State = State(slots: seq<string>, count: nat, lock: Option<nat>, threads: map<nat, Thread>)

  datatype Action = Call(t: nat, name: string) | Step(t: nat)

  const NAME_LIMIT: nat := 128

  predicate Init(s: State) {
    s.count == 0 && s.lock == None && forall t | t in s.threads :: s.threads[t] == Idle
  }

  function At(s: State, t: nat, th: Thread): State { s.(threads := s.threads[t := th]) }

  function Stepped(s: State, t: nat): State
    requires t in s.threads
  {
    match s.threads[t]
    case Idle => s
    case LoadCount(name) => At(s, t, Search(name, s.count, 0))
    case Search(name, count, i) =>
      if i < count && i < |s.slots| then
        if s.slots[i] == name then At(s, t, Done(name, Some(i))) else At(s, t, Search(name, count, i + 1))
      else At(s, t, if |name| >= NAME_LIMIT then Done(name, None) else Acquire(name))
    case Acquire(name) => if s.lock.None? then At(s, t, LoadAgain(name)).(lock := Some(t)) else s
    case LoadAgain(name) => At(s, t, SearchAgain(name, s.count, 0))
    case SearchAgain(name, count, i) =>
      if i < count && i < |s.slots| then
        if s.slots[i] == name then At(s, t, Release(name, Some(i))) else At(s, t, SearchAgain(name, count, i + 1))
      else if s.count < |s.slots| then At(s, t, Write(name, s.count))
      else At(s, t, Release(name, None))
    case Write(name, at) =>
      At(s, t, Publish(name, at)).(slots := if at < |s.slots| then s.slots[at := name] else s.slots)
    case Publish(name, at) => At(s, t, Release(name, Some(at))).(count := at + 1)
    case Release(name, result) => At(s, t, Done(name, result)).(lock := None)
    case Done(_, _) => s
  }

  predicate Next(s: State, a: Action, u: State) {
    match a
    case Call(t, name) =>
      t in s.threads && (s.threads[t].Idle? || s.threads[t].Done?) && u == At(s, t, LoadCount(name))
    case Step(t) => t in s.threads && u == Stepped(s, t)
  }

  predicate Run(tr: seq<State>, acts: seq<Action>) {
    |tr| == |acts| + 1 && Init(tr[0]) && forall i | 0 <= i < |acts| :: Next(tr[i], acts[i], tr[i + 1])
  }

  // ---------------------------------------------------------------- invariant

  predicate Holds(th: Thread) {
    th.LoadAgain? || th.SearchAgain? || th.Write? || th.Publish? || th.Release?
  }

  predicate Absent(slots: seq<string>, n: nat, name: string)
    requires n <= |slots|
  {
    forall j | 0 <= j < n :: slots[j] != name
  }

  /** What a result says: the slot of the name, or that the name is too long to be
      registered or the table is full without it. */
  predicate Found(s: State, name: string, result: Option<nat>)
    requires s.count <= |s.slots|
  {
    match result
    case Some(i) => i < s.count && s.slots[i] == name
    case None => |name| >= NAME_LIMIT || (s.count == |s.slots| && Absent(s.slots, s.count, name))
  }

  predicate Short(slots: seq<string>, n: nat)
    requires n <= |slots|
  {
    forall j | 0 <= j < n :: |slots[j]| < NAME_LIMIT
  }

  /** What a thread knows; the searcher under the lock knows the whole table. */
  predicate Knows(s: State, th: Thread)
    requires s.count <= |s.slots|
  {
    match th
    case Acquire(name) => |name| < NAME_LIMIT
    case LoadAgain(name) => |name| < NAME_LIMIT
    case SearchAgain(name, count, i) =>
      |name| < NAME_LIMIT && count == s.count && i <= count && Absent(s.slots, i, name)
    case Write(name, at) => |name| < NAME_LIMIT && at == s.count < |s.slots| && Absent(s.slots, at, name)
    case Publish(name, at) =>
      |name| < NAME_LIMIT && at == s.count < |s.slots| && s.slots[at] == name && Absent(s.slots, at, name)
    case Release(name, result) => Found(s, name, result)
    case Done(name, result) => Found(s, name, result)
    case Search(name, count, i) => count <= s.count
    case _ => true
  }

  predicate Distinct(slots: seq<string>, n: nat)
    requires n <= |slots|
  {
    forall i, j | 0 <= i < j < n :: slots[i] != slots[j]
  }

  ghost predicate Inv(s: State) {
    && s.count <= |s.slots| && Distinct(s.slots, s.count) && Short(s.slots, s.count)
    && (forall t | t in s.threads && Holds(s.threads[t]) :: s.lock == Some(t))
    && (forall t | t in s.threads :: Knows(s, s.threads[t]))
  }

  /** Only a holder of the lock touches the table, and never a published slot. */
  lemma OthersKnow(s: State, u: State, t: nat)
    requires Inv(s) && t in s.threads && u.count <= |u.slots| == |s.slots| && s.count <= u.count
    requires forall j | 0 <= j < s.count :: u.slots[j] == s.slots[j]
    requires (u.slots == s.slots && u.count == s.count) || Holds(s.threads[t])
    ensures forall t' | t' in s.threads && t' != t :: Knows(u, s.threads[t'])
  {
    forall t' | t' in s.threads && t' != t ensures Knows(u, s.threads[t']) {
      assert Knows(s, s.threads[t']);
      assert Holds(s.threads[t]) ==> !Holds(s.threads[t']);
    }
  }

  /** The thread that steps knows its share again, and the table only grows. */
  ghost predicate Effect(s: State, t: nat, u: State)
    requires t in s.threads && s.count <= |s.slots|
  {
    && |u.slots| == |s.slots| && s.count <= u.count <= |u.slots|
    && Distinct(u.slots, u.count) && Short(u.slots, u.count)
    && (forall j | 0 <= j < s.count :: u.slots[j] == s.slots[j])
    && ((u.slots == s.slots && u.count == s.count) || Holds(s.threads[t]))
    && t in u.threads && u.threads == s.threads[t := u.threads[t]] && Knows(u, u.threads[t])
    && (Holds(u.threads[t]) ==> u.lock == Some(t))
    && (u.lock == s.lock || (s.lock.None? && u.lock == Some(t)) || (s.lock == Some(t) && u.lock.None?))
  }

  lemma WriterEffect(s: State, t: nat)
    requires Inv(s) && t in s.threads && (s.threads[t].Write? || s.threads[t].Publish?)
    ensures Effect(s, t, Stepped(s, t))
  {
    assert Knows(s, s.threads[t]);
  }

  lemma SearcherEffect(s: State, t: nat)
    requires Inv(s) && t in s.threads && (s.threads[t].SearchAgain? || s.threads[t].Search?)
    ensures Effect(s, t, Stepped(s, t))
  {
    assert Knows(s, s.threads[t]);
    hide Distinct;
  }

  lemma OtherEffect(s: State, t: nat)
    requires Inv(s) && t in s.threads && !s.threads[t].Write? && !s.threads[t].Publish?
    requires !s.threads[t].SearchAgain? && !s.threads[t].Search?
    ensures Effect(s, t, Stepped(s, t))
  {
    assert Knows(s, s.threads[t]);
    assert s.threads[t := s.threads[t]] == s.threads;
    hide Distinct;
  }

  lemma StepEffect(s: State, t: nat)
    requires Inv(s) && t in s.threads
    ensures Effect(s, t, Stepped(s, t))
  {
    hide Stepped, Knows, Distinct;
    var th := s.threads[t];
    if th.Write? || th.Publish? { WriterEffect(s, t); }
    else if th.SearchAgain? || th.Search? { SearcherEffect(s, t); }
    else { OtherEffect(s, t); }
  }

  lemma StepKeeps(s: State, a: Action, u: State)
    requires Inv(s) && Next(s, a, u)
    ensures Inv(u) && |u.slots| == |s.slots| && s.count <= u.count
    ensures forall j | 0 <= j < s.count :: u.slots[j] == s.slots[j]
  {
    var t := a.t;
    if a.Step? { StepEffect(s, t); }
    hide Knows, Distinct, Stepped;
    if a.Call? { CallKnows(s, u, a); }
    OthersKnow(s, u, t);
  }

  lemma CallKnows(s: State, u: State, a: Action)
    requires Inv(s) && Next(s, a, u) && a.Call?
    ensures Knows(u, u.threads[a.t])
  {
  }

  lemma {:induction false} RunKeeps(tr: seq<State>, acts: seq<Action>, i: nat)
    requires Run(tr, acts) && i < |tr|
    ensures Inv(tr[i])
  {
    if i > 0 {
      RunKeeps(tr, acts, i - 1);
      StepKeeps(tr[i - 1], acts[i - 1], tr[i]);
    }
  }

  predicate Returned(th: Thread) { th.Done? && th.result.Some? }

  /** In every run registered names stay pairwise distinct, and a lookup that returned a
      slot returned the slot of its name; so all threads agree on the slot of a name. A
      lookup that returned none had a name that is not registered, then or later: it is too
      long, or the table is full. */
  lemma RegisteredOnce(tr: seq<State>, acts: seq<Action>, i: nat, t: nat, t': nat)
    requires Run(tr, acts) && i < |tr| && t in tr[i].threads && t' in tr[i].threads
    ensures tr[i].count <= |tr[i].slots| && Distinct(tr[i].slots, tr[i].count)
    ensures Returned(tr[i].threads[t]) ==>
              var th := tr[i].threads[t];
              th.result.value < tr[i].count && tr[i].slots[th.result.value] == th.name
    ensures var a, b := tr[i].threads[t], tr[i].threads[t'];
            Returned(a) && Returned(b) && a.name == b.name ==> a.result == b.result
    ensures var th := tr[i].threads[t];
            th.Done? && th.result.None? ==>
              && (|th.name| >= NAME_LIMIT || tr[i].count == |tr[i].slots|)
              && Absent(tr[i].slots, tr[i].count, th.name)
  {
    RunKeeps(tr, acts, i);
    assert Knows(tr[i], tr[i].threads[t]) && Knows(tr[i], tr[i].threads[t']);
  }

  /** A published slot is never overwritten or moved. */
  lemma {:induction false} SlotsAreStable(tr: seq<State>, acts: seq<Action>, i: nat, j: nat)
    requires Run(tr, acts) && i <= j < |tr|
    ensures tr[i].count <= |tr[i].slots| && tr[i].count <= tr[j].count <= |tr[j].slots|
    ensures forall k | 0 <= k < tr[i].count :: tr[j].slots[k] == tr[i].slots[k]
  {
    hide Knows, Distinct, Next;
    RunKeeps(tr, acts, j);
    if i < j {
      SlotsAreStable(tr, acts, i, j - 1);
      RunKeeps(tr, acts, j - 1);
      StepKeeps(tr[j - 1], acts[j - 1], tr[j]);
    }
  }
}
