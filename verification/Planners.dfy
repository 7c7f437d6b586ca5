/** console/ttl.mjs, the pure plans: what is past its deadline, when to look again, what was handed back. */
module Planners {
  import opened Options
  import opened JsMaps
  import opened Records
  import opened LedgerLog

  // ---------------------------------------------------------------- expiry

  datatype PlanItem = PlanItem(scope: ScopeId, scopeName: string, expired: seq<Pub>)

  predicate Lapsed(row: Row, issued: JsMap<ScopeId, IssuedEntry>) {
    row.status == PastDeadline && HeldIn(Get(issued, row.scope), row.agent)
  }

  function AddLapsed(byScope: JsMap<ScopeId, PlanItem>, row: Row): JsMap<ScopeId, PlanItem> {
    var item := match Get(byScope, row.scope)
                case Some(item) => item
                case None => PlanItem(row.scope, row.scopeName, []);
    Set(byScope, row.scope, item.(expired := item.expired + [row.agent]))
  }

  function PlanOf(rows: seq<Row>, issued: JsMap<ScopeId, IssuedEntry>): JsMap<ScopeId, PlanItem>
    decreases |rows|
  {
    if rows == [] then []
    else
      var earlier := PlanOf(rows[..|rows| - 1], issued);
      if Lapsed(rows[|rows| - 1], issued) then AddLapsed(earlier, rows[|rows| - 1]) else earlier
  }

  function ExpiryPlan(index: Index, now: int): seq<PlanItem> {
    Values(PlanOf(Derive(index, now), IssuedMap(index.issued)))
  }

  /** `expiryRotationPlan`: one item per scope with a holder past its deadline. */
  method ExpiryRotationPlan(index: Index, now: int) returns (plan: seq<PlanItem>)
    ensures plan == ExpiryPlan(index, now)
  {
    hide Derive, IssuedMap, Set, Values;
    var rows := DeriveDelegations(index, now);
    var issued := IssuedMap(index.issued);
    var byScope: JsMap<ScopeId, PlanItem> := [];
    for i := 0 to |rows|
      invariant byScope == PlanOf(rows[..i], issued)
    {
      assert rows[..i + 1][..i] == rows[..i];
      assert [] + [rows[i].agent] == [rows[i].agent];
      if rows[i].status == PastDeadline && HeldIn(Get(issued, rows[i].scope), rows[i].agent) {
        if !Has(byScope, rows[i].scope) {
          byScope := Set(byScope, rows[i].scope, PlanItem(rows[i].scope, rows[i].scopeName, [rows[i].agent]));
        } else {
          var item := Get(byScope, rows[i].scope).value;
          byScope := Set(byScope, rows[i].scope, item.(expired := item.expired + [rows[i].agent]));
        }
      }
    }
    assert rows[..|rows|] == rows;
    plan := Values(byScope);
  }

  /** A delegation whose deadline is over and whose agent still holds the current generation. */
  predicate Due(index: Index, now: int, k: Pair) {
    Held(index, k) && DeadlineOf(TermsOf(index, k)).Some? && DeadlineOf(TermsOf(index, k)).value <= now
  }

  lemma {:induction false} PlanOfIs(rows: seq<Row>, issued: JsMap<ScopeId, IssuedEntry>)
    ensures var plan := PlanOf(rows, issued);
            && Distinct(plan)
            && (forall i | 0 <= i < |plan| :: plan[i].value.scope == plan[i].key && plan[i].value.expired != [])
            && (forall i, a | 0 <= i < |plan| && a in plan[i].value.expired ::
                  exists r :: r in rows && Lapsed(r, issued) && r.scope == plan[i].key && r.agent == a)
            && (forall r | r in rows && Lapsed(r, issued) ::
                  Has(plan, r.scope) && r.agent in plan[Find(plan, r.scope)].value.expired)
    decreases |rows|
  {
    if rows != [] {
      var earlier, row := rows[..|rows| - 1], rows[|rows| - 1];
      PlanOfIs(earlier, issued);
      assert forall r :: r in rows <==> r in earlier || r == row;
      if Lapsed(row, issued) {
        PlanGrows(earlier, row, issued);
      }
    }
  }

  lemma PlanGrows(earlier: seq<Row>, row: Row, issued: JsMap<ScopeId, IssuedEntry>)
    requires Lapsed(row, issued)
    requires var plan := PlanOf(earlier, issued);
             && Distinct(plan)
             && (forall i | 0 <= i < |plan| :: plan[i].value.scope == plan[i].key && plan[i].value.expired != [])
             && (forall i, a | 0 <= i < |plan| && a in plan[i].value.expired ::
                   exists r :: r in earlier && Lapsed(r, issued) && r.scope == plan[i].key && r.agent == a)
             && (forall r | r in earlier && Lapsed(r, issued) ::
                   Has(plan, r.scope) && r.agent in plan[Find(plan, r.scope)].value.expired)
    ensures var plan := AddLapsed(PlanOf(earlier, issued), row);
            && Distinct(plan)
            && (forall i | 0 <= i < |plan| :: plan[i].value.scope == plan[i].key && plan[i].value.expired != [])
            && (forall i, a | 0 <= i < |plan| && a in plan[i].value.expired ::
                  exists r :: (r in earlier || r == row) && Lapsed(r, issued) && r.scope == plan[i].key && r.agent == a)
            && (forall r | (r in earlier || r == row) && Lapsed(r, issued) ::
                  Has(plan, r.scope) && r.agent in plan[Find(plan, r.scope)].value.expired)
  {
    hide PlanOf, Lapsed;
    var before := PlanOf(earlier, issued);
    var plan := AddLapsed(before, row);
    var item := match Get(before, row.scope)
                case Some(item) => item
                case None => PlanItem(row.scope, row.scopeName, []);
    SetThenGet(before, row.scope, item.(expired := item.expired + [row.agent]));
    forall r | (r in earlier || r == row) && Lapsed(r, issued)
      ensures Has(plan, r.scope) && r.agent in plan[Find(plan, r.scope)].value.expired
    {
      assert Get(plan, r.scope) == if r.scope == row.scope then Some(item.(expired := item.expired + [row.agent]))
             else Get(before, r.scope);
    }
  }

  /** The plan is exact: one item per scope, listing precisely the holders whose deadline is over. */
  lemma PlanIsExact(index: Index, now: int)
    ensures var plan := ExpiryPlan(index, now);
            && (forall i, j | 0 <= i < j < |plan| :: plan[i].scope != plan[j].scope)
            && (forall i | 0 <= i < |plan| :: plan[i].expired != [])
            && (forall i, a | 0 <= i < |plan| :: a in plan[i].expired <==> Due(index, now, Pair(plan[i].scope, a)))
            && (forall k | Due(index, now, k) :: exists i :: 0 <= i < |plan| && plan[i].scope == k.scope)
  {
    var rows, issued := Derive(index, now), IssuedMap(index.issued);
    var byScope := PlanOf(rows, issued);
    PlanOfIs(rows, issued);
    forall k: Pair
      ensures Due(index, now, k) <==> exists r ::
              r in rows && Lapsed(r, issued) && r.scope == k.scope && r.agent == k.agent
    {
      LapsedIsDue(index, now, k);
    }
    var plan := ExpiryPlan(index, now);
    forall i, a | 0 <= i < |plan|
      ensures a in plan[i].expired <==> Due(index, now, Pair(plan[i].scope, a))
    {
      if Due(index, now, Pair(plan[i].scope, a)) {
        var r :| r in rows && Lapsed(r, issued) && r.scope == plan[i].scope && r.agent == a;
        FindIs(byScope, i);
      }
    }
    forall k | Due(index, now, k)
      ensures exists i :: 0 <= i < |plan| && plan[i].scope == k.scope
    {
      var r :| r in rows && Lapsed(r, issued) && r.scope == k.scope && r.agent == k.agent;
      assert plan[Find(byScope, k.scope)].scope == k.scope;
    }
  }

  lemma LapsedIsDue(index: Index, now: int, k: Pair)
    ensures Due(index, now, k) <==>
            exists r ::
                r in Derive(index, now) && Lapsed(r, IssuedMap(index.issued)) && r.scope == k.scope
                    && r.agent == k.agent
  {
    DeriveIs(index, now);
    AllPairsAre(index, k);
    if Due(index, now, k) {
      var r := RowOf(index, now, k).value;
      assert RowOf(index, now, Pair(r.scope, r.agent)) == Some(r);
      assert Lapsed(r, IssuedMap(index.issued));
    }
    if r :| r in Derive(index, now) && Lapsed(r, IssuedMap(index.issued)) && r.scope == k.scope && r.agent == k.agent {
      assert Pair(r.scope, r.agent) == k;
    }
  }

  // ---------------------------------------------------------------- the timer

  function Sooner(next: Option<int>, at: int): Option<int> {
    match next case None => Some(at) case Some(n) => Some(if at < n then at else n)
  }

  predicate Ahead(row: Row, now: int) {
    row.status == Holding && row.expiresAt.Some? && row.expiresAt.value > now
  }

  function NextOf(rows: seq<Row>, now: int): Option<int>
    decreases |rows|
  {
    if rows == [] then None
    else
      var row := rows[|rows| - 1];
      var next := NextOf(rows[..|rows| - 1], now);
      if Ahead(row, now) then Sooner(next, row.expiresAt.value) else next
  }

  /** `nextExpiry`: the soonest deadline still ahead. */
  method NextExpiry(index: Index, now: int) returns (next: Option<int>)
    ensures next == NextOf(Derive(index, now), now)
  {
    var rows := DeriveDelegations(index, now);
    next := None;
    for i := 0 to |rows|
      invariant next == NextOf(rows[..i], now)
    {
      assert rows[..i + 1][..i] == rows[..i];
      if rows[i].status == Holding && rows[i].expiresAt.Some? && rows[i].expiresAt.value > now {
        next := Sooner(next, rows[i].expiresAt.value);
      }
    }
    assert rows[..|rows|] == rows;
  }

  lemma {:induction false} NextOfIs(rows: seq<Row>, now: int)
    ensures NextOf(rows, now).None? <==> forall r | r in rows :: !Ahead(r, now)
    ensures forall r | r in rows && Ahead(r, now) ::
            NextOf(rows, now).Some? && NextOf(rows, now).value <= r.expiresAt.value
    ensures NextOf(rows, now).Some? ==> exists r :: r in rows && Ahead(r, now) && r.expiresAt == NextOf(rows, now)
    decreases |rows|
  {
    if rows != [] {
      NextOfIs(rows[..|rows| - 1], now);
      assert forall r :: r in rows <==> r in rows[..|rows| - 1] || r == rows[|rows| - 1];
    }
  }

  /** A dropped delegation never reads as held, whatever the log says. */
  lemma {:induction false} DroppedNeverHolds(log: seq<LedgerEvent>, k: Pair, terms: Option<Terms>)
    ensures DroppedStatus(log, k, terms) != Holding
    decreases |log|
  {
    if log != [] {
      DroppedNeverHolds(log[..|log| - 1], k, terms);
    }
  }

  /** A row changes with time only by crossing a deadline that is still ahead. */
  lemma RowStands(index: Index, now: int, t: int, k: Pair, info: PairInfo)
    requires now <= t
    requires var row := MakeRow(index, now, k, info); Ahead(row, now) ==> t < row.expiresAt.value
    ensures MakeRow(index, t, k, info) == MakeRow(index, now, k, info)
  {
  }

  /** Until the armed moment nothing changes: the rows, hence the plan, are those of now. */
  lemma QuietUntilNext(index: Index, now: int, t: int)
    requires now <= t
    requires var next := NextOf(Derive(index, now), now); next.None? || t < next.value
    ensures Derive(index, t) == Derive(index, now)
    ensures ExpiryPlan(index, t) == ExpiryPlan(index, now)
  {
    hide AllPairs, MakeRow, NextOf;
    var pairs := AllPairs(index);
    var unsorted := MakeRows(index, now, pairs);
    NextOfIs(Derive(index, now), now);
    forall i | 0 <= i < |pairs|
      ensures MakeRow(index, t, pairs[i].key, pairs[i].value) == MakeRow(index, now, pairs[i].key, pairs[i].value)
    {
      assert unsorted[i] in unsorted;
      assert unsorted[i] in Derive(index, now);
      RowStands(index, now, t, pairs[i].key, pairs[i].value);
    }
    assert MakeRows(index, t, pairs) == unsorted;
  }

  /** At the armed moment somebody becomes due who was not before. */
  lemma DueAtNext(index: Index, now: int)
    requires NextOf(Derive(index, now), now).Some?
    ensures var next := NextOf(Derive(index, now), now).value;
            next > now && exists k :: Due(index, next, k) && !Due(index, now, k)
  {
    NextOfIs(Derive(index, now), now);
    var next := NextOf(Derive(index, now), now).value;
    var r :| r in Derive(index, now) && Ahead(r, now) && r.expiresAt == Some(next);
    var k := Pair(r.scope, r.agent);
    DeriveIs(index, now);
    AllPairsAre(index, k);
    DroppedNeverHolds(index.ledger, k, Get(AllPairs(index), k).value.terms);
    assert Due(index, next, k) && !Due(index, now, k);
  }
}
