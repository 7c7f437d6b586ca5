/** What a rotation does to the index, and what the planners make of it afterwards. */
module Rotation {
  import opened Options
  import opened Sequences
  import opened JsMaps
  import opened Records
  import opened Entries
  import opened LedgerLog
  import opened Planners

  function NotIn(drop: seq<Pub>): Pub -> bool {
    (p: Pub) => p !in drop
  }

  function Survivors(entry: IssuedEntry, drop: seq<Pub>): seq<Pub> {
    Filter(NotIn(drop), entry.grantees)
  }

  /** The entry of a scope once it was rotated past `drop`. */
  function RotatedEntry(entry: IssuedEntry, drop: seq<Pub>, key: Key): IssuedEntry {
    IssuedEntry(entry.scope, entry.scope_name, entry.v + 1, key, Survivors(entry, drop))
  }

  /** `index.issued.map(...)`: every entry of the scope becomes the new one. */
  function Replaced(issued: seq<IssuedEntry>, entry: IssuedEntry): (r: seq<IssuedEntry>)
    ensures |r| == |issued|
    ensures forall i | 0 <= i < |issued| :: r[i] == if issued[i].scope == entry.scope then entry else issued[i]
  {
    seq(|issued|, i requires 0 <= i < |issued| => if issued[i].scope == entry.scope then entry else issued[i])
  }

  /** The index after a rotation of `scope`. */
  function RotatedIndex(index: Index, scope: ScopeId, drop: seq<Pub>, key: Key, events: seq<LedgerEvent>): Index
    requires scope in Scopes(index.issued)
  {
    var entry := index.issued[EntryAt(index.issued, scope)];
    Index(Replaced(index.issued, RotatedEntry(entry, drop, key)), AppendAll(index.ledger, events), index.children)
  }

  lemma {:induction false} ReplacedMap(issued: seq<IssuedEntry>, entry: IssuedEntry, s: ScopeId)
    ensures Get(IssuedMap(Replaced(issued, entry)), s) ==
            if s == entry.scope && Get(IssuedMap(issued), s).Some? then Some(entry) else Get(IssuedMap(issued), s)
    decreases |issued|
  {
    if issued != [] {
      hide Get, Set;
      var fewer, last := issued[..|issued| - 1], issued[|issued| - 1];
      var after := Replaced(issued, entry);
      ReplacedMap(fewer, entry, s);
      assert after[..|after| - 1] == Replaced(fewer, entry);
      SetThenGet(IssuedMap(fewer), last.scope, last);
      SetThenGet(IssuedMap(Replaced(fewer, entry)), last.scope, after[|after| - 1]);
    }
  }

  lemma ReplacedScopes(issued: seq<IssuedEntry>, entry: IssuedEntry)
    ensures Scopes(Replaced(issued, entry)) == Scopes(issued)
    ensures UniqueScopes(issued) ==> UniqueScopes(Replaced(issued, entry))
  {
  }

  /** Under unique scopes the `Map` and `find` agree on the entry. */
  lemma MapIsFind(issued: seq<IssuedEntry>, scope: ScopeId)
    requires UniqueScopes(issued) && scope in Scopes(issued)
    ensures Get(IssuedMap(issued), scope) == Some(issued[EntryAt(issued, scope)])
  {
    IssuedMapIs(issued, scope);
    var i := EntryAt(issued, scope);
    assert issued[i] in issued;
    var e := Get(IssuedMap(issued), scope).value;
    var j :| 0 <= j < |issued| && issued[j] == e;
  }

  /** The holders after a rotation: the dropped ones are gone from that scope and nothing else changed. */
  lemma HeldAfter(index: Index, scope: ScopeId, drop: seq<Pub>, key: Key, events: seq<LedgerEvent>, k: Pair)
    requires scope in Scopes(index.issued) && UniqueScopes(index.issued)
    ensures Held(RotatedIndex(index, scope, drop, key, events), k)
            <==> Held(index, k) && !(k.scope == scope && k.agent in drop)
    ensures UniqueScopes(RotatedIndex(index, scope, drop, key, events).issued)
    ensures Scopes(RotatedIndex(index, scope, drop, key, events).issued) == Scopes(index.issued)
  {
    hide IssuedMap, Get, UniqueScopes;
    var entry := index.issued[EntryAt(index.issued, scope)];
    ReplacedMap(index.issued, RotatedEntry(entry, drop, key), k.scope);
    ReplacedScopes(index.issued, RotatedEntry(entry, drop, key));
    MapIsFind(index.issued, scope);
  }

  // ---------------------------------------------------------------- trimming

  lemma {:induction false} SuffixForgets(log: seq<LedgerEvent>, n: nat, k: Pair)
    requires n <= |log|
    ensures LatestGranted(log[n..], k) == LatestGranted(log, k) || LatestGranted(log[n..], k) == None
    decreases |log|
  {
    if n < |log| {
      SuffixForgets(log[..|log| - 1], n, k);
      assert log[n..][..|log[n..]| - 1] == log[..|log| - 1][n..];
    }
  }

  ghost predicate NothingGranted(events: seq<LedgerEvent>) {
    forall ev | ev in events :: !ev.Granted?
  }

  /** Appending other events never changes the terms of a delegation, it can only let them be forgotten. */
  lemma {:induction false} TermsFade(log: seq<LedgerEvent>, events: seq<LedgerEvent>, k: Pair)
    requires NothingGranted(events)
    ensures LatestGranted(AppendAll(log, events), k) == LatestGranted(log, k)
            || LatestGranted(AppendAll(log, events), k) == None
    decreases |events|
  {
    if events != [] {
      var earlier, ev := events[..|events| - 1], events[|events| - 1];
      TermsFade(log, earlier, k);
      var longer := AppendAll(log, earlier) + [ev];
      assert longer[..|longer| - 1] == AppendAll(log, earlier);
      assert ev in events;
      if |longer| > LEDGER_CAP {
        SuffixForgets(longer, |longer| - LEDGER_CAP, k);
      }
    }
  }

  lemma DueAfter(index: Index, now: int, scope: ScopeId, drop: seq<Pub>, key: Key, events: seq<LedgerEvent>, k: Pair)
    requires scope in Scopes(index.issued) && UniqueScopes(index.issued) && NothingGranted(events)
    ensures Due(RotatedIndex(index, scope, drop, key, events), now, k) ==>
            Due(index, now, k) && !(k.scope == scope && k.agent in drop)
  {
    HeldAfter(index, scope, drop, key, events, k);
    TermsFade(index.ledger, events, k);
  }

  // ---------------------------------------------------------------- the sweep converges

  /** One item of a sweep: either the scope was rotated past its lapsed holders, or the index is as it was. */
  ghost predicate SweepStep(index: Index, item: PlanItem, rotated: bool, index': Index) {
    if rotated then
      && item.scope in Scopes(index.issued)
      && exists key, events ::
         NothingGranted(events) && index' == RotatedIndex(index, item.scope, item.expired, key, events)
    else index' == index
  }

  ghost predicate Sweep(plan: seq<PlanItem>, indices: seq<Index>, rotated: seq<bool>) {
    && |indices| == |plan| + 1 && |rotated| == |plan|
    && forall i | 0 <= i < |plan| :: SweepStep(indices[i], plan[i], rotated[i], indices[i + 1])
  }

  /** Some of the first `n` items that went through drops this delegation. */
  predicate DroppedBy(plan: seq<PlanItem>, rotated: seq<bool>, n: nat, k: Pair)
    requires n <= |plan| == |rotated|
  {
    exists i :: 0 <= i < n && rotated[i] && plan[i].scope == k.scope && k.agent in plan[i].expired
  }

  lemma SweepStepKeeps(index: Index, item: PlanItem, rotated: bool, index': Index, now: int, k: Pair)
    requires SweepStep(index, item, rotated, index') && UniqueScopes(index.issued)
    ensures UniqueScopes(index'.issued)
    ensures Held(index', k) <==> Held(index, k) && !(rotated && item.scope == k.scope && k.agent in item.expired)
    ensures Due(index', now, k) ==> Due(index, now, k)
  {
    if rotated {
      var key, events :| NothingGranted(events) && index' == RotatedIndex(index, item.scope, item.expired, key, events);
      HeldAfter(index, item.scope, item.expired, key, events, k);
      DueAfter(index, now, item.scope, item.expired, key, events, k);
    }
  }

  /** After `n` items: whoever was rotated out is gone, everybody else stays, and nobody new is due. */
  lemma {:induction false} SweepSoFar(plan: seq<PlanItem>, indices: seq<Index>, rotated: seq<bool>, now: int, n: nat,
                                      k: Pair)
    requires Sweep(plan, indices, rotated) && UniqueScopes(indices[0].issued) && n <= |plan|
    ensures UniqueScopes(indices[n].issued)
    ensures Held(indices[n], k) <==> Held(indices[0], k) && !DroppedBy(plan, rotated, n, k)
    ensures Due(indices[n], now, k) ==> Due(indices[0], now, k)
  {
    hide Held, Due, SweepStep, UniqueScopes;
    if n > 0 {
      SweepSoFar(plan, indices, rotated, now, n - 1, k);
      SweepStepKeeps(indices[n - 1], plan[n - 1], rotated[n - 1], indices[n], now, k);
    }
  }

  /** A sweep drops exactly the holders past their deadline, in every scope it could rotate; what is still due
      afterwards, trimmed log or not, belongs to a scope whose rotation failed. */
  lemma SweepConverges(index: Index, now: int, indices: seq<Index>, rotated: seq<bool>)
    requires UniqueScopes(index.issued)
    requires Sweep(ExpiryPlan(index, now), indices, rotated) && indices[0] == index
    ensures var plan, after := ExpiryPlan(index, now), indices[|indices| - 1];
            && (forall i, a | 0 <= i < |plan| && rotated[i] ::
                  Held(after, Pair(plan[i].scope, a)) <==>
                  Held(index, Pair(plan[i].scope, a)) && !Due(index, now, Pair(plan[i].scope, a)))
            && (forall k | Held(index, k) && !Due(index, now, k) :: Held(after, k))
            && (forall k | Due(after, now, k) :: exists i :: 0 <= i < |plan| && !rotated[i] && plan[i].scope == k.scope)
            && ((forall i | 0 <= i < |rotated| :: rotated[i]) ==> ExpiryPlan(after, now) == [])
  {
    hide Held, Due, SweepStep, UniqueScopes, ExpiryPlan;
    var plan, n := ExpiryPlan(index, now), |indices| - 1;
    var after := indices[n];
    PlanIsExact(index, now);
    forall k: Pair
      ensures Held(after, k) <==> Held(index, k) && !DroppedBy(plan, rotated, n, k)
      ensures Due(after, now, k) ==> Due(index, now, k)
      ensures Due(after, now, k) ==> Held(after, k)
    {
      SweepSoFar(plan, indices, rotated, now, n, k);
      DueIsHeld(after, now, k);
    }
    forall k | Due(after, now, k)
      ensures exists i :: 0 <= i < |plan| && !rotated[i] && plan[i].scope == k.scope
    {
      var i :| 0 <= i < |plan| && plan[i].scope == k.scope;
      assert Due(index, now, Pair(plan[i].scope, k.agent));
      assert k.agent in plan[i].expired;
    }
    DueIfPlanned(after, now);
  }

  lemma DueIsHeld(index: Index, now: int, k: Pair)
    ensures Due(index, now, k) ==> Held(index, k)
  {
  }

  lemma DueIfPlanned(index: Index, now: int)
    ensures ExpiryPlan(index, now) != [] ==> exists k :: Due(index, now, k)
  {
    PlanIsExact(index, now);
    var plan := ExpiryPlan(index, now);
    if plan != [] {
      var a := plan[0].expired[0];
      assert a in plan[0].expired;
      assert Due(index, now, Pair(plan[0].scope, a));
    }
  }
}
