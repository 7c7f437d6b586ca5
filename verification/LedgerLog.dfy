/** console/ledgerlog.mjs: the capped event log and the delegation rows derived from it. */
module LedgerLog {
  import opened Options
  import opened Sequences
  import opened JsMaps
  import opened Records

  const LEDGER_CAP := 500

  /** `appendLedger`: the newest events are kept. */
  function AppendLedger(log: seq<LedgerEvent>, event: LedgerEvent): seq<LedgerEvent> {
    var longer := log + [event];
    if |longer| > LEDGER_CAP then longer[|longer| - LEDGER_CAP..] else longer
  }

  function AppendAll(log: seq<LedgerEvent>, events: seq<LedgerEvent>): seq<LedgerEvent>
    decreases |events|
  {
    if events == [] then log
    else AppendLedger(AppendAll(log, events[..|events| - 1]), events[|events| - 1])
  }

  /** One delegation: the source's `scope:agent` key. */
  datatype Pair = Pair(scope: ScopeId, agent: Pub)

  datatype PairInfo = PairInfo(grantedAt: Option<int>, terms: Option<Terms>, name: string)

  datatype Status = Holding | PastDeadline | HandedBack | CutOff

  datatype Row = Row(
    scope: ScopeId,
    scopeName: string,
    agent: Pub,
    v: Option<nat>,
    status: Status,
    terms: Option<Terms>,
    grantedAt: Option<int>,
    expiresAt: Option<int>)

  // ---------------------------------------------------------------- the pairs

  function Record(pairs: JsMap<Pair, PairInfo>, ev: LedgerEvent): JsMap<Pair, PairInfo> {
    if !ev.Granted? then pairs
    else
      var k := Pair(ev.scope, ev.agent);
      var prev := Get(pairs, k);
      var first := if prev.Some? && prev.value.grantedAt.Some? then prev.value.grantedAt else Some(ev.at);
      Set(pairs, k, PairInfo(first, ev.terms, ev.name))
  }

  function GrantedPairs(log: seq<LedgerEvent>): JsMap<Pair, PairInfo>
    decreases |log|
  {
    if log == [] then [] else Record(GrantedPairs(log[..|log| - 1]), log[|log| - 1])
  }

  /** `new Map(issued.map(e => [e.scope, e]))`. */
  function IssuedMap(issued: seq<IssuedEntry>): JsMap<ScopeId, IssuedEntry>
    decreases |issued|
  {
    if issued == [] then []
    else Set(IssuedMap(issued[..|issued| - 1]), issued[|issued| - 1].scope, issued[|issued| - 1])
  }

  /** Grantees without a granted event still get a row, with unknown terms. */
  function AddHolder(pairs: JsMap<Pair, PairInfo>, scope: ScopeId, name: string, agent: Pub): JsMap<Pair, PairInfo> {
    if Has(pairs, Pair(scope, agent)) then pairs
    else Set(pairs, Pair(scope, agent), PairInfo(None, None, name))
  }

  function AddHolders(pairs: JsMap<Pair, PairInfo>, scope: ScopeId, name: string,
                      agents: seq<Pub>): JsMap<Pair, PairInfo>
    decreases |agents|
  {
    if agents == [] then pairs
    else AddHolder(AddHolders(pairs, scope, name, agents[..|agents| - 1]), scope, name, agents[|agents| - 1])
  }

  function AddEntries(pairs: JsMap<Pair, PairInfo>, issued: JsMap<ScopeId, IssuedEntry>): JsMap<Pair, PairInfo>
    decreases |issued|
  {
    if issued == [] then pairs
    else
      var last := issued[|issued| - 1];
      AddHolders(AddEntries(pairs, issued[..|issued| - 1]), last.key, last.value.scope_name, last.value.grantees)
  }

  function AllPairs(index: Index): JsMap<Pair, PairInfo> {
    AddEntries(GrantedPairs(index.ledger), IssuedMap(index.issued))
  }

  // ---------------------------------------------------------------- the rows

  function DeadlineOf(terms: Option<Terms>): Option<int> {
    if terms.Some? then terms.value.expires_at else None
  }

  /** `droppedStatus`: the newest terminal event that speaks about the pair. */
  function DroppedStatus(log: seq<LedgerEvent>, k: Pair, terms: Option<Terms>): Status
    decreases |log|
  {
    if log == [] then CutOff
    else
      var ev := log[|log| - 1];
      match Terminal(ev, k, terms)
      case Some(status) => status
      case None => DroppedStatus(log[..|log| - 1], k, terms)
  }

  function Terminal(ev: LedgerEvent, k: Pair, terms: Option<Terms>): Option<Status> {
    if ev.scope != k.scope then None
    else if ev.Relinquished? && ev.agent == k.agent then Some(HandedBack)
    else if ev.Revoked? && ev.agent == k.agent then Some(CutOff)
    else if ev.ExpiredRotated? && DeadlineOf(terms).Some? && DeadlineOf(terms).value <= ev.at then Some(PastDeadline)
    else None
  }

  predicate HeldIn(entry: Option<IssuedEntry>, agent: Pub) {
    entry.Some? && agent in entry.value.grantees
  }

  function MakeRow(index: Index, now: int, k: Pair, info: PairInfo): Row {
    var e := Get(IssuedMap(index.issued), k.scope);
    var deadline := DeadlineOf(info.terms);
    var status :=
      if !HeldIn(e, k.agent) then DroppedStatus(index.ledger, k, info.terms)
      else if deadline.Some? && deadline.value <= now then PastDeadline else Holding;
    Row(k.scope, if e.Some? then e.value.scope_name else info.name, k.agent,
        if e.Some? then Some(e.value.v) else None, status, info.terms, info.grantedAt, deadline)
  }

  function Rank(s: Status): nat {
    match s case Holding => 0 case PastDeadline => 1 case HandedBack => 2 case CutOff => 3
  }

  function OrZero(v: Option<int>): int {
    if v.Some? then v.value else 0
  }

  predicate Before(a: Row, b: Row) {
    Rank(a.status) < Rank(b.status) || (Rank(a.status) == Rank(b.status) && OrZero(a.grantedAt) > OrZero(b.grantedAt))
  }

  function MakeRows(index: Index, now: int, pairs: JsMap<Pair, PairInfo>): (rows: seq<Row>)
    ensures |rows| == |pairs|
    ensures forall i | 0 <= i < |pairs| :: rows[i] == MakeRow(index, now, pairs[i].key, pairs[i].value)
  {
    seq(|pairs|, i requires 0 <= i < |pairs| => MakeRow(index, now, pairs[i].key, pairs[i].value))
  }

  function Derive(index: Index, now: int): seq<Row> {
    Sort(Before, MakeRows(index, now, AllPairs(index)))
  }

  /** `deriveDelegations`: a pass over the entries, one over the log, one over the holders and one over the pairs. */
  method DeriveDelegations(index: Index, now: int) returns (rows: seq<Row>)
    ensures rows == Derive(index, now)
  {
    var issued: JsMap<ScopeId, IssuedEntry> := [];
    for i := 0 to |index.issued|
      invariant issued == IssuedMap(index.issued[..i])
    {
      assert index.issued[..i + 1][..i] == index.issued[..i];
      issued := Set(issued, index.issued[i].scope, index.issued[i]);
    }
    assert index.issued[..|index.issued|] == index.issued;
    var pairs := CollectGranted(index.ledger);
    pairs := CollectHolders(pairs, issued);
    rows := CollectRows(index, now, issued, pairs);
    rows := Sort(Before, rows);
  }

  method CollectGranted(log: seq<LedgerEvent>) returns (pairs: JsMap<Pair, PairInfo>)
    ensures pairs == GrantedPairs(log)
  {
    pairs := [];
    for i := 0 to |log|
      invariant pairs == GrantedPairs(log[..i])
    {
      var ev := log[i];
      assert log[..i + 1][..i] == log[..i];
      if ev.Granted? {
        var k := Pair(ev.scope, ev.agent);
        var prev := Get(pairs, k);
        var first := if prev.Some? && prev.value.grantedAt.Some? then prev.value.grantedAt else Some(ev.at);
        pairs := Set(pairs, k, PairInfo(first, ev.terms, ev.name));
      }
    }
    assert log[..|log|] == log;
  }

  method CollectHolders(granted: JsMap<Pair, PairInfo>, issued: JsMap<ScopeId, IssuedEntry>)
    returns (pairs: JsMap<Pair, PairInfo>)
    ensures pairs == AddEntries(granted, issued)
  {
    pairs := granted;
    for i := 0 to |issued|
      invariant pairs == AddEntries(granted, issued[..i])
    {
      var e := issued[i];
      ghost var before := pairs;
      assert issued[..i + 1][..i] == issued[..i];
      for j := 0 to |e.value.grantees|
        invariant pairs == AddHolders(before, e.key, e.value.scope_name, e.value.grantees[..j])
      {
        assert e.value.grantees[..j + 1][..j] == e.value.grantees[..j];
        if !Has(pairs, Pair(e.key, e.value.grantees[j])) {
          pairs := Set(pairs, Pair(e.key, e.value.grantees[j]), PairInfo(None, None, e.value.scope_name));
        }
      }
      assert e.value.grantees[..|e.value.grantees|] == e.value.grantees;
    }
    assert issued[..|issued|] == issued;
  }

  method CollectRows(index: Index, now: int, issued: JsMap<ScopeId, IssuedEntry>, pairs: JsMap<Pair, PairInfo>)
    returns (rows: seq<Row>)
    requires issued == IssuedMap(index.issued)
    ensures rows == MakeRows(index, now, pairs)
  {
    rows := [];
    for i := 0 to |pairs|
      invariant rows == MakeRows(index, now, pairs)[..i]
    {
      var k, info := pairs[i].key, pairs[i].value;
      var e := Get(issued, k.scope);
      var status := DropOrHold(index, now, issued, k, info);
      rows := rows + [Row(k.scope, if e.Some? then e.value.scope_name else info.name, k.agent,
                          if e.Some? then Some(e.value.v) else None, status, info.terms, info.grantedAt,
                              DeadlineOf(info.terms))];
    }
  }

  /** The status of one pair; for a dropped one the log is walked backwards. */
  method DropOrHold(index: Index, now: int, issued: JsMap<ScopeId, IssuedEntry>, k: Pair, info: PairInfo)
    returns (status: Status)
    requires issued == IssuedMap(index.issued)
    ensures status == MakeRow(index, now, k, info).status
  {
    if HeldIn(Get(issued, k.scope), k.agent) {
      var deadline := DeadlineOf(info.terms);
      return if deadline.Some? && deadline.value <= now then PastDeadline else Holding;
    }
    var log := index.ledger;
    var i := |log|;
    assert log[..i] == log;
    while i > 0
      invariant 0 <= i <= |log|
      invariant DroppedStatus(log, k, info.terms) == DroppedStatus(log[..i], k, info.terms)
    {
      i := i - 1;
      assert log[..i + 1][..i] == log[..i];
      var found := Terminal(log[i], k, info.terms);
      if found.Some? { return found.value; }
    }
    assert log[..0] == [];
    return CutOff;
  }

  // ---------------------------------------------------------------- what the rows say

  /** The terms of the newest granted event for a pair, read from the end of the log. */
  function LatestGranted(log: seq<LedgerEvent>, k: Pair): (r: Option<LedgerEvent>)
    ensures r.Some? ==> r.value.Granted? && Pair(r.value.scope, r.value.agent) == k && r.value in log
    decreases |log|
  {
    if log == [] then None
    else
      var ev := log[|log| - 1];
      if ev.Granted? && Pair(ev.scope, ev.agent) == k then Some(ev) else LatestGranted(log[..|log| - 1], k)
  }

  function TermsOf(index: Index, k: Pair): Option<Terms> {
    match LatestGranted(index.ledger, k) case Some(Granted(_, _, _, _, terms, _)) => terms case _ => None
  }

  /** The current holder lists: the entry a `Map` keeps for a scope, which is the last one written. */
  predicate Held(index: Index, k: Pair) {
    HeldIn(Get(IssuedMap(index.issued), k.scope), k.agent)
  }

  lemma {:induction false} GrantedPairsAre(log: seq<LedgerEvent>, k: Pair)
    ensures Distinct(GrantedPairs(log))
    ensures Has(GrantedPairs(log), k) <==> LatestGranted(log, k).Some?
    ensures Has(GrantedPairs(log), k) ==>
              Get(GrantedPairs(log), k).value.terms == LatestGranted(log, k).value.terms
    decreases |log|
  {
    if log != [] {
      var earlier, ev := log[..|log| - 1], log[|log| - 1];
      GrantedPairsAre(earlier, k);
      if ev.Granted? {
        var pairs, key := GrantedPairs(earlier), Pair(ev.scope, ev.agent);
        var prev := Get(pairs, key);
        var first := if prev.Some? && prev.value.grantedAt.Some? then prev.value.grantedAt else Some(ev.at);
        SetThenGet(pairs, key, PairInfo(first, ev.terms, ev.name));
      }
    }
  }

  lemma {:induction false} AddHoldersAre(pairs: JsMap<Pair, PairInfo>, scope: ScopeId, name: string, agents: seq<Pub>,
                                         k: Pair)
    ensures var r := AddHolders(pairs, scope, name, agents);
            && (Distinct(pairs) ==> Distinct(r))
            && Get(r, k) == if Has(pairs, k) then Get(pairs, k)
                            else if k.scope == scope && k.agent in agents then Some(PairInfo(None, None, name))
                                else None
    decreases |agents|
  {
    if agents != [] {
      var fewer, last := agents[..|agents| - 1], agents[|agents| - 1];
      AddHoldersAre(pairs, scope, name, fewer, k);
      SetThenGet(AddHolders(pairs, scope, name, fewer), Pair(scope, last), PairInfo(None, None, name));
      assert k.agent in agents <==> k.agent in fewer || k.agent == last;
    }
  }

  lemma {:induction false} AddEntriesAre(pairs: JsMap<Pair, PairInfo>, issued: JsMap<ScopeId, IssuedEntry>, k: Pair)
    requires Distinct(issued)
    ensures var r := AddEntries(pairs, issued);
            && (Distinct(pairs) ==> Distinct(r))
            && (Has(pairs, k) ==> Get(r, k) == Get(pairs, k))
            && (!Has(pairs, k) ==>
                  if HeldIn(Get(issued, k.scope), k.agent)
                  then Get(r, k) == Some(PairInfo(None, None, Get(issued, k.scope).value.scope_name))
                      else Get(r, k) == None)
    decreases |issued|
  {
    if issued != [] {
      var fewer, last := issued[..|issued| - 1], issued[|issued| - 1];
      AddEntriesAre(pairs, fewer, k);
      AddHoldersAre(AddEntries(pairs, fewer), last.key, last.value.scope_name, last.value.grantees, k);
      GetOfPrefix(issued, k.scope);
    }
  }

  lemma GetOfPrefix<K, V>(m: JsMap<K, V>, k: K)
    requires Distinct(m) && m != []
    ensures var last := m[|m| - 1]; Get(m, k) == if last.key == k then Some(last.value) else Get(m[..|m| - 1], k)
  {
  }

  /** Under unique scopes the `Map` of the entries answers with the entry itself. */
  lemma {:induction false} IssuedMapIs(issued: seq<IssuedEntry>, s: ScopeId)
    ensures Distinct(IssuedMap(issued))
    ensures Get(IssuedMap(issued), s).Some? <==> exists e :: e in issued && e.scope == s
    ensures Get(IssuedMap(issued), s).Some? ==>
            Get(IssuedMap(issued), s).value in issued && Get(IssuedMap(issued), s).value.scope == s
    decreases |issued|
  {
    if issued != [] {
      var fewer, last := issued[..|issued| - 1], issued[|issued| - 1];
      IssuedMapIs(fewer, s);
      SetThenGet(IssuedMap(fewer), last.scope, last);
      assert forall e :: e in issued <==> e in fewer || e == last;
    }
  }

  /** There is one row per delegation that was ever granted (as far as the log remembers) or is held now. */
  lemma AllPairsAre(index: Index, k: Pair)
    ensures Distinct(AllPairs(index))
    ensures Has(AllPairs(index), k) <==> LatestGranted(index.ledger, k).Some? || Held(index, k)
    ensures Has(AllPairs(index), k) ==> Get(AllPairs(index), k).value.terms == TermsOf(index, k)
  {
    GrantedPairsAre(index.ledger, k);
    IssuedMapIs(index.issued, k.scope);
    AddEntriesAre(GrantedPairs(index.ledger), IssuedMap(index.issued), k);
  }

  /** The row of one delegation. */
  function RowOf(index: Index, now: int, k: Pair): Option<Row> {
    match Get(AllPairs(index), k) case Some(info) => Some(MakeRow(index, now, k, info)) case None => None
  }

  /** The derived list is exactly the rows of the delegations, in the documented order. */
  lemma DeriveIs(index: Index, now: int)
    ensures forall r: Row :: r in Derive(index, now) <==> RowOf(index, now, Pair(r.scope, r.agent)) == Some(r)
    ensures Ordered(Before, Derive(index, now))
  {
    var pairs := AllPairs(index);
    SortOrders(Before, MakeRows(index, now, pairs));
    AllPairsAre(index, Pair("", ""));
    forall r: Row
      ensures r in Derive(index, now) <==> RowOf(index, now, Pair(r.scope, r.agent)) == Some(r)
    {
      var k := Pair(r.scope, r.agent);
      if r in MakeRows(index, now, pairs) {
        var i :| 0 <= i < |pairs| && MakeRows(index, now, pairs)[i] == r;
        FindIs(pairs, i);
        assert pairs[i].key == k;
      }
      if RowOf(index, now, k) == Some(r) {
        assert MakeRows(index, now, pairs)[Find(pairs, k)] == r;
      }
    }
  }

  /** One row per delegation, so no delegation is listed twice. */
  lemma DeriveOnce(index: Index, now: int, i: nat, j: nat)
    requires i < j < |Derive(index, now)|
    ensures Derive(index, now)[i].scope != Derive(index, now)[j].scope
            || Derive(index, now)[i].agent != Derive(index, now)[j].agent
  {
    var rows, pairs, sorted := MakeRows(index, now, AllPairs(index)), AllPairs(index), Derive(index, now);
    AllPairsAre(index, Pair("", ""));
    forall a, b | 0 <= a < b < |rows|
      ensures rows[a] != rows[b]
    {
      assert Pair(rows[a].scope, rows[a].agent) == pairs[a].key != pairs[b].key == Pair(rows[b].scope, rows[b].agent);
    }
    NoRepeats(rows);
    var r := sorted[i];
    if Pair(r.scope, r.agent) == Pair(sorted[j].scope, sorted[j].agent) {
      DeriveIs(index, now);
      assert r in sorted && sorted[j] in sorted;
      Twice(sorted, i, j);
    }
  }

  // ---------------------------------------------------------------- a row, against the entries and the log

  /** The terms of the newest granted event that the log retains for this pair; none if there is none. */
  ghost predicate OnRecord(log: seq<LedgerEvent>, scope: ScopeId, p: Pub, terms: Option<Terms>) {
    if exists i :: 0 <= i < |log| && NewestGrant(log, i, scope, p)
    then exists i :: 0 <= i < |log| && NewestGrant(log, i, scope, p) && log[i].terms == terms
    else terms == None
  }

  /** Event `i` granted the scope to `p`, and no later event did. */
  ghost predicate NewestGrant(log: seq<LedgerEvent>, i: nat, scope: ScopeId, p: Pub)
    requires i < |log|
  {
    && log[i].Granted? && log[i].scope == scope && log[i].agent == p
    && forall j | i < j < |log| :: !(log[j].Granted? && log[j].scope == scope && log[j].agent == p)
  }

  lemma {:induction false} LatestIsNewest(log: seq<LedgerEvent>, k: Pair)
    ensures match LatestGranted(log, k)
            case Some(ev) => exists i :: 0 <= i < |log| && NewestGrant(log, i, k.scope, k.agent) && log[i] == ev
            case None =>
              forall i | 0 <= i < |log| :: !(log[i].Granted? && log[i].scope == k.scope && log[i].agent == k.agent)
    decreases |log|
  {
    if log != [] {
      var n := |log| - 1;
      var earlier := log[..n];
      LatestIsNewest(earlier, k);
      if log[n].Granted? && log[n].scope == k.scope && log[n].agent == k.agent {
        assert NewestGrant(log, n, k.scope, k.agent);
      } else if LatestGranted(earlier, k).Some? {
        var i :| 0 <= i < n && NewestGrant(earlier, i, k.scope, k.agent)
          && earlier[i] == LatestGranted(earlier, k).value;
        assert NewestGrant(log, i, k.scope, k.agent);
      }
    }
  }

  lemma TermsAreOnRecord(index: Index, scope: ScopeId, p: Pub)
    ensures forall terms :: OnRecord(index.ledger, scope, p, terms) <==> terms == TermsOf(index, Pair(scope, p))
  {
    LatestIsNewest(index.ledger, Pair(scope, p));
    forall i, j | 0 <= i < |index.ledger| && 0 <= j < |index.ledger|
      && NewestGrant(index.ledger, i, scope, p) && NewestGrant(index.ledger, j, scope, p)
      ensures i == j
    {
    }
  }

  /** Event `i` is the first that granted the scope to `p`. */
  ghost predicate FirstGrant(log: seq<LedgerEvent>, i: nat, scope: ScopeId, p: Pub)
    requires i < |log|
  {
    && log[i].Granted? && log[i].scope == scope && log[i].agent == p
    && forall j | 0 <= j < i :: !(log[j].Granted? && log[j].scope == scope && log[j].agent == p)
  }

  /** Entry `i` is the last one of the scope. */
  ghost predicate LastEntry(issued: seq<IssuedEntry>, i: nat, scope: ScopeId)
    requires i < |issued|
  {
    issued[i].scope == scope && forall j | i < j < |issued| :: issued[j].scope != scope
  }

  /** Event `i` ends the delegation: it was handed back, revoked, or its deadline had passed when the scope was
      rotated. */
  ghost predicate Ends(ev: LedgerEvent, scope: ScopeId, p: Pub, deadline: Option<int>) {
    ev.scope == scope &&
    match ev
    case Relinquished(_, _, agent, _, _, _) => agent == p
    case Revoked(_, _, agent, _, _, _) => agent == p
    case ExpiredRotated(at, _, _, _, _, _) => deadline.Some? && deadline.value <= at
    case _ => false
  }

  /** Event `i` is the newest that ends the delegation. */
  ghost predicate NewestEnd(log: seq<LedgerEvent>, i: nat, scope: ScopeId, p: Pub, deadline: Option<int>)
    requires i < |log|
  {
    Ends(log[i], scope, p, deadline) && forall j | i < j < |log| :: !Ends(log[j], scope, p, deadline)
  }

  /** The row says what the entries and the log say of the delegation. */
  ghost predicate RowSays(index: Index, now: int, row: Row) {
    && SaysEntry(index.issued, index.ledger, row)
    && OnRecord(index.ledger, row.scope, row.agent, row.terms)
    && row.expiresAt == (if row.terms.Some? then row.terms.value.expires_at else None)
    && SaysSince(index.ledger, row)
    && SaysStatus(index.issued, index.ledger, now, row)
  }

  /** Name and generation are those of the scope's entry; without an entry the name is the one last granted under. */
  ghost predicate SaysEntry(issued: seq<IssuedEntry>, log: seq<LedgerEvent>, row: Row) {
    if exists i :: 0 <= i < |issued| && LastEntry(issued, i, row.scope)
    then exists i :: 0 <= i < |issued| && LastEntry(issued, i, row.scope)
           && row.v == Some(issued[i].v) && row.scopeName == issued[i].scope_name
    else row.v == None
         && exists i ::
              0 <= i < |log| && NewestGrant(log, i, row.scope, row.agent) && row.scopeName == log[i].name
  }

  /** The delegation dates from its first granted event. */
  ghost predicate SaysSince(log: seq<LedgerEvent>, row: Row) {
    if exists i :: 0 <= i < |log| && FirstGrant(log, i, row.scope, row.agent)
    then exists i :: 0 <= i < |log| && FirstGrant(log, i, row.scope, row.agent) && row.grantedAt == Some(log[i].at)
    else row.grantedAt == None
  }

  /** A listed agent holds, or is past its deadline; any other ended the way the newest ending says, or was cut off. */
  ghost predicate SaysStatus(issued: seq<IssuedEntry>, log: seq<LedgerEvent>, now: int, row: Row) {
    if exists i :: 0 <= i < |issued| && LastEntry(issued, i, row.scope) && row.agent in issued[i].grantees
    then row.status == if row.expiresAt.Some? && row.expiresAt.value <= now then PastDeadline else Holding
    else if exists i :: 0 <= i < |log| && NewestEnd(log, i, row.scope, row.agent, row.expiresAt)
    then exists i :: 0 <= i < |log| && NewestEnd(log, i, row.scope, row.agent, row.expiresAt)
           && EndedBy(log[i], row.status)
    else row.status == CutOff
  }

  ghost predicate EndedBy(ev: LedgerEvent, status: Status) {
    match ev
    case Relinquished(_, _, _, _, _, _) => status == HandedBack
    case Revoked(_, _, _, _, _, _) => status == CutOff
    case _ => status == PastDeadline
  }

  /** Which event a known pair dates from, and which one gave it its name. */
  lemma {:induction false} GrantedSince(log: seq<LedgerEvent>, k: Pair) returns (i: nat, j: nat)
    requires Has(GrantedPairs(log), k)
    ensures i < |log| && FirstGrant(log, i, k.scope, k.agent)
    ensures j < |log| && NewestGrant(log, j, k.scope, k.agent)
    ensures Get(GrantedPairs(log), k).value.grantedAt == Some(log[i].at)
    ensures Get(GrantedPairs(log), k).value.name == log[j].name
    decreases |log|
  {
    var n := |log| - 1;
    var earlier, ev := log[..n], log[n];
    assert log == earlier + [ev];
    RecordIs(GrantedPairs(earlier), ev, k);
    SinceStays(earlier, ev, k);
    if !Has(GrantedPairs(earlier), k) {
      NeverGranted(earlier, k);
    }
    hide FirstGrant, NewestGrant, Record;
    if Has(GrantedPairs(earlier), k) {
      i, j := GrantedSince(earlier, k);
    } else {
      i, j := n, n;
    }
    if ev.Granted? && Pair(ev.scope, ev.agent) == k {
      j := n;
    }
  }

  lemma RecordIs(pairs: JsMap<Pair, PairInfo>, ev: LedgerEvent, k: Pair)
    ensures if ev.Granted? && Pair(ev.scope, ev.agent) == k
            then Has(Record(pairs, ev), k) && Get(Record(pairs, ev), k).value.name == ev.name
                 && Get(Record(pairs, ev), k).value.grantedAt
                    == (if Has(pairs, k) && Get(pairs, k).value.grantedAt.Some? then Get(pairs, k).value.grantedAt
                        else Some(ev.at))
            else Get(Record(pairs, ev), k) == Get(pairs, k)
  {
    if ev.Granted? {
      var key := Pair(ev.scope, ev.agent);
      var prev := Get(pairs, key);
      var first := if prev.Some? && prev.value.grantedAt.Some? then prev.value.grantedAt else Some(ev.at);
      SetThenGet(pairs, key, PairInfo(first, ev.terms, ev.name));
    }
  }

  /** One more event: the first granted event of a pair stays the first, and one of the pair itself becomes the
      newest. */
  lemma SinceStays(log: seq<LedgerEvent>, ev: LedgerEvent, k: Pair)
    ensures forall i | 0 <= i < |log| && FirstGrant(log, i, k.scope, k.agent) ::
              FirstGrant(log + [ev], i, k.scope, k.agent) && (log + [ev])[i] == log[i]
    ensures if ev.Granted? && ev.scope == k.scope && ev.agent == k.agent
            then NewestGrant(log + [ev], |log|, k.scope, k.agent)
                 && ((forall i | 0 <= i < |log| ::
                        !(log[i].Granted? && log[i].scope == k.scope && log[i].agent == k.agent)) ==>
                     FirstGrant(log + [ev], |log|, k.scope, k.agent))
            else forall i | 0 <= i < |log| && NewestGrant(log, i, k.scope, k.agent) ::
                   NewestGrant(log + [ev], i, k.scope, k.agent) && (log + [ev])[i] == log[i]
  {
  }

  lemma NeverGranted(log: seq<LedgerEvent>, k: Pair)
    requires !Has(GrantedPairs(log), k)
    ensures forall i | 0 <= i < |log| :: !(log[i].Granted? && log[i].scope == k.scope && log[i].agent == k.agent)
  {
    GrantedPairsAre(log, k);
    LatestIsNewest(log, k);
  }

  /** The entry that a `Map` keeps for a scope. */
  lemma {:induction false} MapKeepsLast(issued: seq<IssuedEntry>, scope: ScopeId)
    ensures match Get(IssuedMap(issued), scope)
            case Some(e) => exists i :: 0 <= i < |issued| && LastEntry(issued, i, scope) && issued[i] == e
            case None => forall e | e in issued :: e.scope != scope
    decreases |issued|
  {
    if issued != [] {
      var n := |issued| - 1;
      var fewer, last := issued[..n], issued[n];
      MapKeepsLast(fewer, scope);
      SetThenGet(IssuedMap(fewer), last.scope, last);
      assert issued == fewer + [last];
      if last.scope == scope {
        assert LastEntry(issued, n, scope);
      } else if Get(IssuedMap(fewer), scope).Some? {
        var i :| 0 <= i < n && LastEntry(fewer, i, scope) && fewer[i] == Get(IssuedMap(fewer), scope).value;
        assert LastEntry(issued, i, scope);
      }
    }
  }

  /** How a delegation ended, read from the end of the log; `i` is `|log|` when nothing ended it. */
  lemma {:induction false} EndingOf(log: seq<LedgerEvent>, k: Pair, terms: Option<Terms>) returns (i: nat)
    ensures i <= |log|
    ensures if i < |log|
            then NewestEnd(log, i, k.scope, k.agent, DeadlineOf(terms)) && EndedBy(log[i], DroppedStatus(log, k, terms))
            else DroppedStatus(log, k, terms) == CutOff
                 && forall j | 0 <= j < |log| :: !Ends(log[j], k.scope, k.agent, DeadlineOf(terms))
    decreases |log|
  {
    i := |log|;
    if log != [] {
      var n := |log| - 1;
      TerminalEnds(log[n], k, terms);
      hide Terminal, Ends, EndedBy;
      i := EndingOf(log[..n], k, terms);
      if Ends(log[n], k.scope, k.agent, DeadlineOf(terms)) {
        i := n;
      } else if i == n {
        i := n + 1;
      }
    }
  }

  lemma TerminalEnds(ev: LedgerEvent, k: Pair, terms: Option<Terms>)
    ensures match Terminal(ev, k, terms)
            case Some(status) => Ends(ev, k.scope, k.agent, DeadlineOf(terms)) && EndedBy(ev, status)
            case None => !Ends(ev, k.scope, k.agent, DeadlineOf(terms))
  {
  }

  /** Every derived row says what the entries and the log say. */
  lemma RowsSay(index: Index, now: int, row: Row)
    requires row in Derive(index, now)
    ensures RowSays(index, now, row)
  {
    hide Derive, RowSays, AllPairs;
    DeriveIs(index, now);
    MadeRowSays(index, now, Pair(row.scope, row.agent));
  }

  /** Rows that hold come first, then those past their deadline, then those handed back, then those cut off; of one kind
      the newest comes first. */
  ghost predicate Precedes(a: Row, b: Row) {
    if a.status == b.status
    then (if a.grantedAt.Some? then a.grantedAt.value else 0) >= (if b.grantedAt.Some? then b.grantedAt.value else 0)
    else a.status == Holding || b.status == CutOff || (a.status == PastDeadline && b.status == HandedBack)
  }

  lemma RowsInOrder(index: Index, now: int, i: nat, j: nat)
    requires i < j < |Derive(index, now)|
    ensures Precedes(Derive(index, now)[i], Derive(index, now)[j])
  {
    hide AllPairs, MakeRow;
    SortOrders(Before, MakeRows(index, now, AllPairs(index)));
    assert !Before(Derive(index, now)[j], Derive(index, now)[i]);
  }

  lemma MadeRowSays(index: Index, now: int, k: Pair)
    requires RowOf(index, now, k).Some?
    ensures RowSays(index, now, RowOf(index, now, k).value)
  {
    hide AllPairs, IssuedMap, DroppedStatus, OnRecord, SaysEntry, SaysSince, SaysStatus;
    var info := Get(AllPairs(index), k).value;
    AllPairsAre(index, k);
    TermsAreOnRecord(index, k.scope, k.agent);
    InfoSays(index, k);
    StatusSays(index, now, k, info);
  }

  lemma InfoSays(index: Index, k: Pair)
    requires Get(AllPairs(index), k).Some?
    ensures var info, e := Get(AllPairs(index), k).value, Get(IssuedMap(index.issued), k.scope);
            forall row: Row | row.scope == k.scope && row.agent == k.agent && row.grantedAt == info.grantedAt
              && row.v == (if e.Some? then Some(e.value.v) else None)
              && row.scopeName == (if e.Some? then e.value.scope_name else info.name) ::
              SaysEntry(index.issued, index.ledger, row) && SaysSince(index.ledger, row)
  {
    hide NewestGrant, FirstGrant, LastEntry;
    MapKeepsLast(index.issued, k.scope);
    IssuedMapIs(index.issued, k.scope);
    OneLastEntry(index.issued, k.scope);
    AddEntriesAre(GrantedPairs(index.ledger), IssuedMap(index.issued), k);
    if Has(GrantedPairs(index.ledger), k) {
      var i, j := GrantedSince(index.ledger, k);
      OneFirst(index.ledger, k);
    } else {
      NeverGranted(index.ledger, k);
      NoneIsFirst(index.ledger, k);
    }
  }

  lemma OneLastEntry(issued: seq<IssuedEntry>, scope: ScopeId)
    ensures forall i, j | 0 <= i < |issued| && 0 <= j < |issued| && LastEntry(issued, i, scope)
              && LastEntry(issued, j, scope) :: i == j
    ensures (exists i :: 0 <= i < |issued| && LastEntry(issued, i, scope)) ==> exists e ::
            e in issued && e.scope == scope
  {
  }

  lemma OneFirst(log: seq<LedgerEvent>, k: Pair)
    ensures forall i, j | 0 <= i < |log| && 0 <= j < |log| && FirstGrant(log, i, k.scope, k.agent)
              && FirstGrant(log, j, k.scope, k.agent) :: i == j
  {
  }

  lemma NoneIsFirst(log: seq<LedgerEvent>, k: Pair)
    requires forall i | 0 <= i < |log| :: !(log[i].Granted? && log[i].scope == k.scope && log[i].agent == k.agent)
    ensures forall i | 0 <= i < |log| :: !FirstGrant(log, i, k.scope, k.agent)
  {
  }

  lemma NoneIsNewest(log: seq<LedgerEvent>, k: Pair, deadline: Option<int>)
    requires forall j | 0 <= j < |log| :: !Ends(log[j], k.scope, k.agent, deadline)
    ensures forall j | 0 <= j < |log| :: !NewestEnd(log, j, k.scope, k.agent, deadline)
  {
  }

  lemma StatusSays(index: Index, now: int, k: Pair, info: PairInfo)
    ensures SaysStatus(index.issued, index.ledger, now, MakeRow(index, now, k, info))
  {
    hide NewestEnd, DroppedStatus, EndedBy;
    MapKeepsLast(index.issued, k.scope);
    OneLastEntry(index.issued, k.scope);
    var i := EndingOf(index.ledger, k, info.terms);
    if i == |index.ledger| {
      NoneIsNewest(index.ledger, k, DeadlineOf(info.terms));
    }
  }
}
