/** Category routing: the selector language, the first-match scan it defines, and the
    per-category cache keyed by the configuration generation. Route lookups and reload
    swaps exclude each other (the configuration lock); each method body is one critical
    section. */
module Routing {
  const LEVELS: nat := 7
  const OFF: nat := 6
  const NAME_LIMIT: nat := 128
  const WRAP: nat := 0x1_0000_0000

  /** A [rules] entry; `negate` is the !LEVEL form. */
  datatype Rule = Rule(selector: string, minLevel: int, maxLevel: int, negate: bool)

  predicate LevelMatch(r: Rule, level: int) {
    if r.negate then level != r.minLevel else r.minLevel <= level <= r.maxLevel
  }

  /** hpu_pipeline_selector_match. */
  predicate SelectorMatch(sel: string, cat: string) {
    if |sel| == 0 then true
    else if |sel| == 1 && sel[0] == '*' then true
    else if |sel| >= 2 && sel[|sel| - 2] == '.' && sel[|sel| - 1] == '*' then
      var prefix := |sel| - 2;
      if |cat| < prefix || sel[..prefix] != cat[..prefix] then false
      else |cat| == prefix || cat[prefix] == '.'
    else sel == cat
  }

  /** What a selector means: everything, one name and all its descendants, or one name. */
  ghost predicate Selects(sel: string, cat: string) {
    || sel == "" || sel == "*"
    || (exists name: string :: sel == name + ".*" && (cat == name || name + "." <= cat))
    || (sel == cat && !(exists name: string :: sel == name + ".*"))
  }

  lemma SelectorMeaning(sel: string, cat: string)
    ensures SelectorMatch(sel, cat) <==> Selects(sel, cat)
  {
    if |sel| >= 2 && sel[|sel| - 2] == '.' && sel[|sel| - 1] == '*' {
      var name := sel[..|sel| - 2];
      assert sel == name + ".*";
      if SelectorMatch(sel, cat) {
        if |cat| > |name| { assert name + "." == cat[..|name| + 1]; }
        else { assert cat == cat[..|name|]; }
      }
      forall other: string | sel == other + ".*" ensures other == name {
        assert other == (other + ".*")[..|other|];
      }
      if cat == name || name + "." <= cat {
        assert sel[..|name|] == name;
        if name + "." <= cat {
          assert cat[..|name|] == (name + ".")[..|name|];
          assert cat[|name|] == (name + ".")[|name|];
        } else {
          assert cat[..|name|] == cat;
        }
      }
    } else {
      forall name: string ensures sel != name + ".*" { Ending(name); }
    }
  }

  lemma Ending(name: string)
    ensures var s := name + ".*"; |s| >= 2 && s[|s| - 2] == '.' && s[|s| - 1] == '*'
  {
  }

  /** The raw category of a record; none or empty stands for "*". */
  function MatchForm(cat: string): string { if cat == "" then "*" else cat }

  predicate Matches(r: Rule, level: int, cat: string) { LevelMatch(r, level) && SelectorMatch(r.selector, cat) }

  /** The reference: the first matching rule from `i` on, or -1. */
  function Scan(rules: seq<Rule>, level: int, cat: string, i: nat): (r: int)
    requires i <= |rules|
    ensures r == -1 || (i <= r < |rules| && Matches(rules[r], level, cat))
    ensures forall k | i <= k < (if r == -1 then |rules| else r) :: !Matches(rules[k], level, cat)
    decreases |rules| - i
  {
    if i == |rules| then -1
    else if Matches(rules[i], level, cat) then i
    else Scan(rules, level, cat, i + 1)
  }

  /** The levels a rule is for: all but one when it is negated, else a range. */
  function LevelsOf(r: Rule): set<int> {
    var all := {0, 1, 2, 3, 4, 5};
    if r.negate then all - {r.minLevel} else set l | l in all && r.minLevel <= l && l <= r.maxLevel
  }

  /** What the scan finds: the first rule for the level whose selector selects the category. */
  lemma ScanMeans(rules: seq<Rule>, level: int, cat: string)
    requires 0 <= level < OFF
    ensures var r := Scan(rules, level, cat, 0);
            && -1 <= r < |rules|
            && (r != -1 ==> level in LevelsOf(rules[r]) && Selects(rules[r].selector, cat))
            && forall k | 0 <= k < (if r == -1 then |rules| else r) ::
                 !(level in LevelsOf(rules[k]) && Selects(rules[k].selector, cat))
  {
    hide Scan, SelectorMatch, Selects;
    forall k | 0 <= k < |rules|
      ensures Matches(rules[k], level, cat) <==> level in LevelsOf(rules[k]) && Selects(rules[k].selector, cat)
    {
      SelectorMeaning(rules[k].selector, cat);
    }
  }

  /** A registered category with its routing cache. */
  datatype Slot = Slot(name: string, ruleFor: seq<int>, gen: nat)

  const EMPTY: seq<int> := [-1, -1, -1, -1, -1, -1, -1]

  predicate Distinct(slots: seq<Slot>) {
    forall i, j | 0 <= i < j < |slots| :: slots[i].name != slots[j].name
  }

  predicate CacheHolds(s: Slot, rules: seq<Rule>) {
    && |s.ruleFor| == LEVELS && s.ruleFor[OFF] == -1
    && forall l | 0 <= l < OFF :: s.ruleFor[l] == Scan(rules, l, s.name, 0)
  }

  /** A slot last refreshed after reload number `seen` (-1 for never): its stamp is the
      generation of that moment and its cache the routing of the rules of that moment. */
  predicate Stamped(s: Slot, seen: int, past: seq<seq<Rule>>) {
    && -1 <= seen < |past| && s.gen == (1 + seen) % WRAP
    && if seen == -1 then s.ruleFor == EMPTY else CacheHolds(s, past[seen])
  }

  /** The 32-bit counter has come round to the stamp of an older refresh. */
  predicate Wrapped(seen: int, reloads: nat) {
    seen < reloads && (reloads - seen) % WRAP == 0
  }

  lemma SameStamp(seen: int, reloads: nat)
    requires -1 <= seen <= reloads
    ensures (1 + seen) % WRAP == (1 + reloads) % WRAP <==> seen == reloads || Wrapped(seen, reloads)
  {
  }

  class Router {
    const max: nat
    const slots: array<Slot>
    var count: nat
    var rules: seq<Rule>
    /** A 32-bit counter that starts at 1. */
    var gen: nat
    /** History: the rules after each number of reloads, and after which of them each slot
        was last refreshed. */
    ghost var past: seq<seq<Rule>>
    ghost var seen: seq<int>

    ghost function Reloads(): nat
      reads this
      requires past != []
    {
      |past| - 1
    }

    ghost predicate Valid()
      reads this, slots
    {
      && slots.Length == max && count <= max && |seen| == count
      && past != [] && past[Reloads()] == rules && gen == |past| % WRAP
      && Distinct(slots[..count])
      && (forall i | 0 <= i < count :: Stamped(slots[i], seen[i], past))
    }

    constructor (max: nat, rules: seq<Rule>)
      ensures Valid() && fresh(slots) && this.rules == rules && count == 0 && past == [rules] && this.max == max
    {
      this.max := max;
      this.rules := rules;
      slots := new Slot[max](_ => Slot("", [], 0));
      count, gen, past, seen := 0, 1, [rules], [];
    }

    /** hpu_registry_find. */
    method Find(name: string) returns (i: int)
      requires Valid()
      ensures i == -1 || (0 <= i < count && slots[i].name == name)
      ensures i == -1 ==> forall k | 0 <= k < count :: slots[k].name != name
    {
      i := 0;
      while i < count
        invariant 0 <= i <= count && forall k | 0 <= k < i :: slots[k].name != name
      {
        if |slots[i].name| == |name| && slots[i].name == name {
          return;
        }
        i := i + 1;
      }
      i := -1;
    }

    /** hpu_registry_lookup: find the category or register it; -1 when it cannot be. */
    method Lookup(name: string) returns (i: int)
      requires Valid()
      modifies this`count, this`seen, slots
      ensures Valid()
      ensures i == -1 ==> |name| >= NAME_LIMIT || count == max
      ensures i == -1 <==> forall k | 0 <= k < count :: slots[k].name != name
      ensures i != -1 ==> 0 <= i < count && slots[i].name == name
      ensures count == old(count) + if i == old(count) then 1 else 0
      ensures (exists k | 0 <= k < old(count) :: old(slots[k].name) == name) ==> count == old(count)
      ensures forall k | 0 <= k < old(count) :: slots[k] == old(slots[k])
      ensures seen == old(seen) + if i == old(count) then [-1] else []
    {
      i := Find(name);
      if i != -1 || |name| >= NAME_LIMIT || count == max {
        assert seen + [] == seen;
        return;
      }
      ghost var before := slots[..count];
      slots[count] := Slot(name, EMPTY, 0);
      i := count;
      count := count + 1;
      seen := seen + [-1];
      assert slots[..count] == before + [slots[i]];
    }

    /** hpu_registry_refresh_route: afterwards the cache is current, unless the counter has
        come round to the slot's stamp; then nothing happens. */
    method RefreshRoute(i: nat)
      requires Valid() && i < count
      modifies this`seen, slots
      ensures Valid() && slots[i].name == old(slots[i].name)
      ensures forall k | 0 <= k < count && k != i :: slots[k] == old(slots[k]) && seen[k] == old(seen[k])
      ensures if Wrapped(old(seen[i]), Reloads()) then seen == old(seen) && slots[i] == old(slots[i])
              else seen[i] == Reloads() && CacheHolds(slots[i], rules)
    {
      SameStamp(seen[i], Reloads());
      assert Stamped(slots[i], seen[i], past);
      if slots[i].gen == gen {
        return;
      }
      var name := slots[i].name;
      var ruleFor := slots[i].ruleFor;
      var level := 0;
      while level < LEVELS
        invariant 0 <= level <= LEVELS && |ruleFor| == LEVELS
        invariant forall l | 0 <= l < level && l < OFF :: ruleFor[l] == Scan(rules, l, name, 0)
        invariant level > OFF ==> ruleFor[OFF] == -1
      {
        ruleFor := ruleFor[level := -1];
        if level < OFF {
          var k := 0;
          while k < |rules|
            invariant 0 <= k <= |rules| && |ruleFor| == LEVELS
            invariant forall l | 0 <= l < level && l < OFF :: ruleFor[l] == Scan(rules, l, name, 0)
            invariant Scan(rules, level, name, 0) == Scan(rules, level, name, k) && ruleFor[level] == -1
          {
            if LevelMatch(rules[k], level) && SelectorMatch(rules[k].selector, name) {
              ruleFor := ruleFor[level := k];
              break;
            }
            k := k + 1;
          }
        }
        level := level + 1;
      }
      slots[i] := Slot(name, ruleFor, gen);
      seen := seen[i := Reloads()];
    }

    /** The slot a record of category `name` is routed through, or -1. */
    ghost function SlotOf(name: string): (i: int)
      reads this, slots
      requires Valid()
      ensures i == -1 || (0 <= i < count && slots[i].name == name)
      ensures i == -1 ==> forall k | 0 <= k < count :: slots[k].name != name
    {
      if k :| 0 <= k < count && slots[k].name == name then k else -1
    }

    /** route_lookup: for every number of reloads, through the cache it is the first-match
        scan of the current rules, unless the category's slot was last refreshed a positive
        multiple of 2^32 reloads ago (a slot never refreshed counts from one reload before
        the first rules). Then it is the scan of the rules of that moment, or -1. */
    method RouteLookup(level: nat, cat: string) returns (idx: int)
      requires Valid() && level < OFF
      modifies this`seen, slots
      ensures Valid()
      ensures var name := if cat == "" then "*" else cat; var i := old(SlotOf(name));
              if i == -1 || !Wrapped(old(seen)[i], Reloads()) then idx == Scan(rules, level, name, 0)
              else idx == if old(seen)[i] == -1 then -1 else Scan(past[old(seen)[i]], level, name, 0)
      ensures forall k | 0 <= k < count :: slots[k].name == old(slots[k].name)
      ensures forall k | 0 <= k < count && k != old(SlotOf(if cat == "" then "*" else cat)) ::
                slots[k] == old(slots[k]) && seen[k] == old(seen[k])
    {
      var name := MatchForm(cat);
      var i := Find(name);
      if i != -1 {
        assert i == SlotOf(name);
        assert Stamped(slots[i], seen[i], past);
        RefreshRoute(i);
        return slots[i].ruleFor[level];
      }
      idx := -1;
      var k := 0;
      while k < |rules|
        invariant 0 <= k <= |rules| && idx == -1
        invariant Scan(rules, level, name, 0) == Scan(rules, level, name, k)
      {
        if LevelMatch(rules[k], level) {
          if SelectorMatch(rules[k].selector, name) {
            return k;
          }
        }
        k := k + 1;
      }
    }

    /** The swap of hpu_core_trigger_reload: new rules and the next generation. */
    method Reload(loaded: seq<Rule>)
      requires Valid()
      modifies this`rules, this`gen, this`past
      ensures Valid() && rules == loaded && past == old(past) + [loaded]
    {
      rules := loaded;
      gen := (gen + 1) % WRAP;
      past := past + [loaded];
      forall i | 0 <= i < count ensures Stamped(slots[i], seen[i], past) {
        assert Stamped(slots[i], seen[i], old(past));
      }
    }
  }

  /** With fewer than 2^32 - 1 reloads no slot is ever taken for current wrongly. */
  lemma NotWrappedYet(seen: int, reloads: nat)
    requires -1 <= seen <= reloads < WRAP - 1
    ensures !Wrapped(seen, reloads)
  {
  }

  /** A run that goes wrong: a category is registered, the configuration is reloaded 2^32 - 1
      times before the first record arrives, and that record is routed nowhere although a
      rule matches it. */
  method LookupAfterWrap(rules: seq<Rule>, level: nat, name: string) returns (router: Router, idx: int)
    requires level < OFF && 0 < |name| < NAME_LIMIT && Scan(rules, level, name, 0) != -1
    ensures fresh(router) && router.Valid() && router.rules == rules && |router.past| == WRAP
    ensures idx == -1 != Scan(router.rules, level, name, 0)
  {
    router := new Router(1, rules);
    var i := router.Lookup(name);
    var n := 0;
    while n < WRAP - 1
      invariant 0 <= n <= WRAP - 1 && router.Valid() && fresh(router) && fresh(router.slots)
      invariant router.rules == rules && |router.past| == n + 1
      invariant router.count == 1 && router.slots[0].name == name && router.seen == [-1]
    {
      router.Reload(rules);
      n := n + 1;
    }
    idx := router.RouteLookup(level, name);
  }
}
