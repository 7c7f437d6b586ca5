/** console/ttl.mjs, `relinquishPlan`: what to rotate at once and what to put before the delegator. */
module RelinquishPlans {
  import opened Options
  import opened Sequences
  import opened JsMaps
  import opened Records
  import opened Entries
  import opened LedgerLog
  import opened Rotation

  datatype Notice = Notice(scope: ScopeId, from: Pub, reason: Option<string>, destroyed_at: int)

  datatype Item = Item(scope: ScopeId, scopeName: string, agent: Pub, reason: Option<string>, destroyed_at: int,
                       v: nat, others: nat)

  datatype Plans = Plans(auto: seq<Item>, confirm: seq<Item>)

  function NotOne(agent: Pub): Pub -> bool {
    (p: Pub) => p != agent
  }

  function ItemFor(entry: IssuedEntry, n: Notice): Item {
    Item(n.scope, entry.scope_name, n.from, n.reason, n.destroyed_at, entry.v, |Filter(NotOne(n.from), entry.grantees)|)
  }

  function Keys(notices: seq<Notice>): set<Pair> {
    set n | n in notices :: Pair(n.scope, n.from)
  }

  /** The plan of a notice list, newest notice first. */
  function PlanFor(notices: seq<Notice>, issued: JsMap<ScopeId, IssuedEntry>): Plans
    decreases |notices|
  {
    if notices == [] then Plans([], [])
    else
      var earlier, n := notices[..|notices| - 1], notices[|notices| - 1];
      var plans := PlanFor(earlier, issued);
      var entry := Get(issued, n.scope);
      if Pair(n.scope, n.from) in Keys(earlier) || !HeldIn(entry, n.from) then plans
      else
        var item := ItemFor(entry.value, n);
        if item.others == 0 then plans.(auto := plans.auto + [item]) else plans.(confirm := plans.confirm + [item])
  }

  /** `relinquishPlan`. */
  method RelinquishPlan(index: Index, notices: seq<Notice>) returns (plans: Plans)
    ensures plans == PlanFor(notices, IssuedMap(index.issued))
  {
    var issued := IssuedMap(index.issued);
    var seen: set<Pair> := {};
    var auto: seq<Item>, confirm: seq<Item> := [], [];
    for i := 0 to |notices|
      invariant seen == Keys(notices[..i])
      invariant Plans(auto, confirm) == PlanFor(notices[..i], issued)
    {
      var n := notices[i];
      assert notices[..i + 1][..i] == notices[..i];
      assert Keys(notices[..i + 1]) == Keys(notices[..i]) + {Pair(n.scope, n.from)} by {
        assert notices[..i + 1][i] == n;
        assert forall x | x in notices[..i] :: x in notices[..i + 1];
        assert forall x | x in notices[..i + 1] :: x in notices[..i] || x == n;
      }
      if Pair(n.scope, n.from) in seen { continue; }
      seen := seen + {Pair(n.scope, n.from)};
      var entry := Get(issued, n.scope);
      if !HeldIn(entry, n.from) { continue; }
      var item := ItemFor(entry.value, n);
      if item.others == 0 { auto := auto + [item]; } else { confirm := confirm + [item]; }
    }
    assert notices[..|notices|] == notices;
    plans := Plans(auto, confirm);
  }

  /** The agent is the only holder. */
  ghost predicate Sole(issued: JsMap<ScopeId, IssuedEntry>, scope: ScopeId, agent: Pub) {
    HeldIn(Get(issued, scope), agent) && forall p | p in Get(issued, scope).value.grantees :: p == agent
  }

  lemma OthersAre(entry: IssuedEntry, n: Notice)
    ensures ItemFor(entry, n).others == 0 <==> forall p | p in entry.grantees :: p == n.from
  {
    var others := Filter(NotOne(n.from), entry.grantees);
    if p :| p in entry.grantees && p != n.from {
      assert p in others;
    }
    if others != [] {
      assert others[0] in others;
    }
  }

  /** What each plan lists: per delegation the newest notice, if its agent still holds; alone or among others. */
  ghost predicate PlanSound(notices: seq<Notice>, issued: JsMap<ScopeId, IssuedEntry>, plans: Plans) {
    && (forall x | x in plans.auto :: Sole(issued, x.scope, x.agent) && Pair(x.scope, x.agent) in Keys(notices))
    && (forall x | x in plans.confirm ::
          HeldIn(Get(issued, x.scope), x.agent) && !Sole(issued, x.scope, x.agent)
              && Pair(x.scope, x.agent) in Keys(notices))
    && (forall k | k in Keys(notices) && HeldIn(Get(issued, k.scope), k.agent) :: Planned(plans, k))
    && (forall i, j | 0 <= i < j < |plans.auto| :: plans.auto[i].scope != plans.auto[j].scope)
    && (forall i, j | 0 <= i < j < |plans.confirm| ::
          plans.confirm[i].scope != plans.confirm[j].scope || plans.confirm[i].agent != plans.confirm[j].agent)
    && (forall x | x in plans.auto || x in plans.confirm :: FromNewest(notices, Get(issued, x.scope), x))
  }

  /** The item carries what the first notice of its delegation says, and what the entry says of the scope. */
  ghost predicate FromNewest(notices: seq<Notice>, entry: Option<IssuedEntry>, x: Item) {
    && entry.Some? && x.v == entry.value.v && x.scopeName == entry.value.scope_name
    && x.others + multiset(entry.value.grantees)[x.agent] == |entry.value.grantees|
    && exists i :: 0 <= i < |notices| && Newest(notices, i, x)
  }

  ghost predicate Newest(notices: seq<Notice>, i: nat, x: Item)
    requires i < |notices|
  {
    && notices[i].scope == x.scope && notices[i].from == x.agent
    && notices[i].reason == x.reason && notices[i].destroyed_at == x.destroyed_at
    && forall j | 0 <= j < i :: notices[j].scope != x.scope || notices[j].from != x.agent
  }

  lemma {:induction false} OthersCount(grantees: seq<Pub>, agent: Pub)
    ensures |Filter(NotOne(agent), grantees)| + multiset(grantees)[agent] == |grantees|
  {
    if grantees != [] {
      OthersCount(grantees[1..], agent);
      assert grantees == [grantees[0]] + grantees[1..];
    }
  }

  lemma OlderNoticeSaysNothing(notices: seq<Notice>, n: Notice, entry: Option<IssuedEntry>, x: Item)
    requires FromNewest(notices, entry, x)
    ensures FromNewest(notices + [n], entry, x)
  {
    var i :| 0 <= i < |notices| && Newest(notices, i, x);
    assert Newest(notices + [n], i, x);
  }

  lemma FirstNotice(notices: seq<Notice>, n: Notice, entry: IssuedEntry)
    requires Pair(n.scope, n.from) !in Keys(notices)
    ensures FromNewest(notices + [n], Some(entry), ItemFor(entry, n))
  {
    OthersCount(entry.grantees, n.from);
    assert forall j | 0 <= j < |notices| :: notices[j] in notices;
    assert Newest(notices + [n], |notices|, ItemFor(entry, n));
  }

  ghost predicate Planned(plans: Plans, k: Pair) {
    exists x :: (x in plans.auto || x in plans.confirm) && Pair(x.scope, x.agent) == k
  }

  lemma {:induction false} PlanIs(notices: seq<Notice>, issued: JsMap<ScopeId, IssuedEntry>)
    ensures PlanSound(notices, issued, PlanFor(notices, issued))
    decreases |notices|
  {
    if notices != [] {
      hide Get, Sole, FromNewest;
      var earlier, n := notices[..|notices| - 1], notices[|notices| - 1];
      assert notices == earlier + [n];
      PlanIs(earlier, issued);
      KeysGrow(notices);
      var plans := PlanFor(earlier, issued);
      forall x | x in plans.auto || x in plans.confirm
        ensures FromNewest(notices, Get(issued, x.scope), x)
      {
        OlderNoticeSaysNothing(earlier, n, Get(issued, x.scope), x);
      }
      if HeldIn(Get(issued, n.scope), n.from) && Pair(n.scope, n.from) !in Keys(earlier) {
        SoleIs(issued, n);
        OneMore(earlier, n, issued, PlanFor(earlier, issued));
      }
    }
  }

  lemma SoleIs(issued: JsMap<ScopeId, IssuedEntry>, n: Notice)
    requires HeldIn(Get(issued, n.scope), n.from)
    ensures ItemFor(Get(issued, n.scope).value, n).others == 0 <==> Sole(issued, n.scope, n.from)
    ensures forall a | Sole(issued, n.scope, a) :: a == n.from
  {
    OthersAre(Get(issued, n.scope).value, n);
  }

  lemma OneMore(earlier: seq<Notice>, n: Notice, issued: JsMap<ScopeId, IssuedEntry>, before: Plans)
    requires PlanSound(earlier, issued, before)
    requires HeldIn(Get(issued, n.scope), n.from) && Pair(n.scope, n.from) !in Keys(earlier)
    requires Keys(earlier + [n]) == Keys(earlier) + {Pair(n.scope, n.from)}
    requires forall a | Sole(issued, n.scope, a) :: a == n.from
    ensures var item := ItemFor(Get(issued, n.scope).value, n);
            && (Sole(issued, n.scope, n.from) ==>
               PlanSound(earlier + [n], issued, before.(auto := before.auto + [item])))
            && (!Sole(issued, n.scope, n.from) ==>
               PlanSound(earlier + [n], issued, before.(confirm := before.confirm + [item])))
  {
    hide Get, Sole, FromNewest;
    var item := ItemFor(Get(issued, n.scope).value, n);
    assert item.scope == n.scope && item.agent == n.from;
    hide ItemFor;
    FirstNotice(earlier, n, Get(issued, n.scope).value);
    forall x | x in before.auto || x in before.confirm
      ensures FromNewest(earlier + [n], Get(issued, x.scope), x)
    {
      OlderNoticeSaysNothing(earlier, n, Get(issued, x.scope), x);
    }
  }

  lemma KeysGrow(notices: seq<Notice>)
    requires notices != []
    ensures var n := notices[|notices| - 1]; Keys(notices) == Keys(notices[..|notices| - 1]) + {Pair(n.scope, n.from)}
  {
  }

  // ---------------------------------------------------------------- executing the automatic part

  /** Every automatic item executed, in order; each rotation drops the one agent. */
  ghost predicate AutoRun(items: seq<Item>, indices: seq<Index>)
    ensures AutoRun(items, indices) ==> |indices| == |items| + 1
  {
    && |indices| == |items| + 1
    && forall i | 0 <= i < |items| ::
         && items[i].scope in Scopes(indices[i].issued)
         && exists key, events ::
            indices[i + 1] == RotatedIndex(indices[i], items[i].scope, [items[i].agent], key, events)
  }

  /** Some of the first `n` items is about scope `s`, and about agent `a` there. */
  predicate Mentions(items: seq<Item>, n: nat, s: ScopeId)
    requires n <= |items|
  {
    exists i :: 0 <= i < n && items[i].scope == s
  }

  predicate Drops(items: seq<Item>, n: nat, k: Pair)
    requires n <= |items|
  {
    exists i :: 0 <= i < n && items[i].scope == k.scope && items[i].agent == k.agent
  }

  lemma AutoStep(before: Index, item: Item, key: Key, events: seq<LedgerEvent>, s: ScopeId)
    requires item.scope in Scopes(before.issued) && UniqueScopes(before.issued)
    ensures var after := RotatedIndex(before, item.scope, [item.agent], key, events);
            && UniqueScopes(after.issued)
            && (s != item.scope ==> Get(IssuedMap(after.issued), s) == Get(IssuedMap(before.issued), s))
            && forall a ::
               Held(after, Pair(s, a)) <==> Held(before, Pair(s, a)) && !(item.scope == s && item.agent == a)
  {
    hide IssuedMap, Get, Held;
    var entry := RotatedEntry(before.issued[EntryAt(before.issued, item.scope)], [item.agent], key);
    ReplacedMap(before.issued, entry, s);
    ReplacedScopes(before.issued, entry);
    forall a
      ensures Held(RotatedIndex(before, item.scope, [item.agent], key, events), Pair(s, a)) <==>
              Held(before, Pair(s, a)) && !(item.scope == s && item.agent == a)
    {
      HeldAfter(before, item.scope, [item.agent], key, events, Pair(s, a));
    }
  }

  lemma {:induction false} AutoRunLeaves(items: seq<Item>, indices: seq<Index>, n: nat, s: ScopeId)
    requires AutoRun(items, indices) && UniqueScopes(indices[0].issued) && n <= |items|
    ensures UniqueScopes(indices[n].issued)
    ensures !Mentions(items, n, s) ==> Get(IssuedMap(indices[n].issued), s) == Get(IssuedMap(indices[0].issued), s)
    ensures forall a :: Held(indices[n], Pair(s, a)) <==> Held(indices[0], Pair(s, a)) && !Drops(items, n, Pair(s, a))
  {
    hide IssuedMap, Get, Held, UniqueScopes, RotatedIndex, AutoRun, Drops, Mentions;
    if n == 0 {
      NothingYet(items, s);
    } else {
      AutoRunLeaves(items, indices, n - 1, s);
      AutoRunAt(items, indices, n - 1);
      OneItemMore(items, n, s);
      var item, before := items[n - 1], indices[n - 1];
      var key, events :| indices[n] == RotatedIndex(before, item.scope, [item.agent], key, events);
      AutoStep(before, item, key, events, s);
    }
  }

  lemma NothingYet(items: seq<Item>, s: ScopeId)
    ensures !Mentions(items, 0, s) && forall a :: !Drops(items, 0, Pair(s, a))
  {
  }

  lemma OneItemMore(items: seq<Item>, n: nat, s: ScopeId)
    requires 0 < n <= |items|
    ensures Mentions(items, n, s) <==> Mentions(items, n - 1, s) || items[n - 1].scope == s
    ensures forall a :: Drops(items, n, Pair(s, a)) <==>
              Drops(items, n - 1, Pair(s, a)) || (items[n - 1].scope == s && items[n - 1].agent == a)
  {
  }

  lemma AutoRunAt(items: seq<Item>, indices: seq<Index>, i: nat)
    requires AutoRun(items, indices) && i < |items|
    ensures items[i].scope in Scopes(indices[i].issued)
    ensures exists key, events ::
            indices[i + 1] == RotatedIndex(indices[i], items[i].scope, [items[i].agent], key, events)
  {
  }

  /** From `issued` to `after` exactly the agents of `auto` were dropped, and scopes without an item are untouched. */
  ghost predicate Cleared(auto: seq<Item>, issued: JsMap<ScopeId, IssuedEntry>, after: JsMap<ScopeId, IssuedEntry>) {
    && (forall s | (forall x | x in auto :: x.scope != s) :: Get(after, s) == Get(issued, s))
    && (forall s, a ::
       HeldIn(Get(after, s), a) <==> HeldIn(Get(issued, s), a) && forall x | x in auto ::
           !(x.scope == s && x.agent == a))
  }

  lemma AutoClears(items: seq<Item>, indices: seq<Index>)
    requires AutoRun(items, indices) && UniqueScopes(indices[0].issued)
    ensures Cleared(items, IssuedMap(indices[0].issued), IssuedMap(indices[|indices| - 1].issued))
  {
    hide IssuedMap, Get, UniqueScopes, AutoRun, HeldIn;
    forall s {
      AutoLeaves(items, indices, s);
    }
  }

  /** Self-healing: the automatic items once executed, the same notices give no automatic item and the same
      questions. */
  lemma ReplanIsQuiet(index: Index, notices: seq<Notice>, indices: seq<Index>)
    requires UniqueScopes(index.issued)
    requires AutoRun(PlanFor(notices, IssuedMap(index.issued)).auto, indices) && indices[0] == index
    ensures var plans := PlanFor(notices, IssuedMap(index.issued));
            PlanFor(notices, IssuedMap(indices[|indices| - 1].issued)) == Plans([], plans.confirm)
  {
    hide UniqueScopes, IssuedMap, PlanFor, Sole, Cleared, AutoRun;
    var issued := IssuedMap(index.issued);
    PlanIs(notices, issued);
    AutoClears(PlanFor(notices, issued).auto, indices);
    assert notices[..|notices|] == notices;
    PrefixReplan(notices, |notices|, issued, IssuedMap(indices[|indices| - 1].issued));
  }

  lemma AutoLeaves(items: seq<Item>, indices: seq<Index>, s: ScopeId)
    requires AutoRun(items, indices) && UniqueScopes(indices[0].issued)
    ensures var before, after := IssuedMap(indices[0].issued), IssuedMap(indices[|indices| - 1].issued);
            && ((forall x | x in items :: x.scope != s) ==> Get(after, s) == Get(before, s))
            && forall a ::
               HeldIn(Get(after, s), a) <==> HeldIn(Get(before, s), a) && forall x | x in items ::
                   !(x.scope == s && x.agent == a)
  {
    hide IssuedMap, Get, UniqueScopes, AutoRun;
    var n := |items|;
    AutoRunLeaves(items, indices, n, s);
    assert forall i | 0 <= i < |items| :: items[i] in items;
    var before, after := IssuedMap(indices[0].issued), IssuedMap(indices[|indices| - 1].issued);
    forall a
      ensures HeldIn(Get(after, s), a) <==> HeldIn(Get(before, s), a) && forall x | x in items ::
              !(x.scope == s && x.agent == a)
    {
      assert Held(indices[n], Pair(s, a)) <==> Held(indices[0], Pair(s, a)) && !Drops(items, n, Pair(s, a));
    }
  }

  lemma {:induction false} AutoOnlyGrows(notices: seq<Notice>, m: nat, issued: JsMap<ScopeId, IssuedEntry>)
    requires m <= |notices|
    ensures forall x | x in PlanFor(notices[..m], issued).auto :: x in PlanFor(notices, issued).auto
    decreases |notices| - m
  {
    if m == |notices| {
      assert notices[..m] == notices;
    } else {
      AutoOnlyGrows(notices, m + 1, issued);
      assert notices[..m + 1][..m] == notices[..m];
    }
  }

  lemma {:induction false} PrefixReplan(notices: seq<Notice>, m: nat, issued: JsMap<ScopeId, IssuedEntry>,
                                        after: JsMap<ScopeId, IssuedEntry>)
    requires m <= |notices|
    requires var auto := PlanFor(notices, issued).auto;
             (forall x | x in auto :: Sole(issued, x.scope, x.agent)) && Cleared(auto, issued, after)
    ensures PlanFor(notices[..m], after) == Plans([], PlanFor(notices[..m], issued).confirm)
  {
    if m > 0 {
      PrefixReplan(notices, m - 1, issued, after);
      var n, auto := notices[m - 1], PlanFor(notices, issued).auto;
      assert notices[..m][..m - 1] == notices[..m - 1];
      AutoOnlyGrows(notices, m, issued);
      if Pair(n.scope, n.from) !in Keys(notices[..m - 1]) && HeldIn(Get(issued, n.scope), n.from) {
        var item := ItemFor(Get(issued, n.scope).value, n);
        OthersAre(Get(issued, n.scope).value, n);
        if item.others == 0 {
          assert item in PlanFor(notices[..m], issued).auto;
          assert !HeldIn(Get(after, n.scope), n.from);
        } else {
          forall x | x in auto
            ensures x.scope != n.scope
          {
          }
          assert Get(after, n.scope) == Get(issued, n.scope);
        }
      }
    }
  }
}
