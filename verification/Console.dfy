/** The delegator's side: console/ttl.mjs `rotateDropping`, console/nvoygrant.mjs `rotateWithTerms`,
    `addGrantee` of console/ledger.mjs, the issue step of console/delegate.mjs and the sweep of bin/nvoy-ttl.mjs. */
module Consoles {
  import opened Options
  import opened Sequences
  import opened Records
  import opened Entries
  import opened Relays
  import opened LedgerLog
  import opened Planners
  import opened Rotation
  import opened Arcs
  import opened RelinquishPlans

  /** The grant that puts one generation of a scope into one pair of hands. */
  function GrantOf(me: Pub, entry: IssuedEntry, terms: Option<Terms>): Grant {
    Grant(me, entry.scope, entry.scope_name, entry.v, entry.key, terms)
  }

  /** Everything a rotation puts on the wire before the index is touched: the new data set, then one grant per
      survivor, each under the terms on record for that survivor. */
  function RotationEvents(me: Pub, index: Index, entry: IssuedEntry, drop: seq<Pub>, key: Key, data: Payload,
                          ts: int): (es: seq<Event>)
    ensures |es| == 1 + |Survivors(entry, drop)|
    ensures es[0] == SetEvent(me, entry.scope, ts, entry.v + 1, key, data)
    ensures forall i | 0 <= i < |Survivors(entry, drop)| ::
              es[i + 1] == var p := Survivors(entry, drop)[i];
                           GrantEvent(p, GrantOf(me, RotatedEntry(entry, drop, key),
                                                 TermsOf(index, Pair(entry.scope, p))))
    ensures forall e | e in es :: e.signed
  {
    var survivors := Survivors(entry, drop);
    [SetEvent(me, entry.scope, ts, entry.v + 1, key, data)] +
    seq(|survivors|, i requires 0 <= i < |survivors| =>
      GrantEvent(survivors[i], GrantOf(me, RotatedEntry(entry, drop, key),
                                       TermsOf(index, Pair(entry.scope, survivors[i])))))
  }

  /** `dels.find(...)?.terms ?? null`. */
  function TermsInRows(rows: seq<Row>, scope: ScopeId, agent: Pub): Option<Terms> {
    if rows == [] then None
    else if rows[0].scope == scope && rows[0].agent == agent then rows[0].terms
    else TermsInRows(rows[1..], scope, agent)
  }

  lemma {:induction false} FoundTerms(rows: seq<Row>, k: Pair, terms: Option<Terms>)
    requires forall r | r in rows && Pair(r.scope, r.agent) == k :: r.terms == terms
    requires exists r :: r in rows && Pair(r.scope, r.agent) == k
    ensures TermsInRows(rows, k.scope, k.agent) == terms
  {
    if Pair(rows[0].scope, rows[0].agent) != k {
      FoundTerms(rows[1..], k, terms);
    }
  }

  /** The derived rows know the terms of every holder. */
  lemma HolderTerms(index: Index, now: int, k: Pair)
    requires Held(index, k)
    ensures TermsInRows(Derive(index, now), k.scope, k.agent) == TermsOf(index, k)
  {
    AllPairsAre(index, k);
    DeriveIs(index, now);
    var row := RowOf(index, now, k).value;
    assert RowOf(index, now, Pair(row.scope, row.agent)) == Some(row);
    FoundTerms(Derive(index, now), k, TermsOf(index, k));
  }

  lemma PublishedPrefix(events: seq<Event>, es: seq<Event>, n: nat)
    requires n < |es| && forall e | e in es :: e.signed
    ensures PublishedAll(events, es[..n + 1]) == Published(PublishedAll(events, es[..n]), es[n])
    ensures PublishedAll(events, es[..0]) == events
  {
    assert es[..n + 1][..n] == es[..n];
    assert es[..0] == [];
  }

  lemma OneMorePublish(events: seq<Event>, es: seq<Event>, e: Event)
    requires (forall x | x in es :: x.signed) && e.signed
    ensures PublishedAll(events, es + [e]) == Published(PublishedAll(events, es), e)
  {
  }

  datatype Reason = NotIndexed | NotReadable | AlreadyHolds

  /** How an operation ended: done, refused before anything was published, or broken off after `sent` publishes. */
  datatype Outcome = Done | Refused(why: Reason) | Broken(sent: nat)

  /** What the caller of a rotation wants written to the log, given the old entry and the number of survivors. */
  type EventMaker = (IssuedEntry, nat) -> seq<LedgerEvent>

  function ExpiryLog(at: int, expired: nat): EventMaker {
    (e: IssuedEntry, survivors: nat) => ExpiryEvents(at, e, expired, survivors)
  }

  function RevokeLog(at: int, agent: Pub, reason: Option<string>): EventMaker {
    (e: IssuedEntry, survivors: nat) => RevokeEvents(at, e, agent, reason, survivors)
  }

  function RelinquishLog(at: int, item: Item): EventMaker {
    (e: IssuedEntry, survivors: nat) => RelinquishEvents(at, e, item.agent, item.reason, item.destroyed_at, survivors)
  }

  /** The index after a rotation and its log entries. */
  function AfterRotation(index: Index, scope: ScopeId, drop: seq<Pub>, key: Key, make: EventMaker): Index
    requires scope in Scopes(index.issued)
  {
    var entry := index.issued[EntryAt(index.issued, scope)];
    RotatedIndex(index, scope, drop, key, make(entry, |Survivors(entry, drop)|))
  }

  /** A rotation under way: some prefix of its publishes, and the index once they are all out. */
  ghost predicate RotationTail(me: Pub, events: seq<Event>, index: Index, entry: IssuedEntry, drop: seq<Pub>, key: Key,
                               data: Payload, ts: int, rotated: Index, r: Outcome, events': seq<Event>, index': Index)
  {
    var es := RotationEvents(me, index, entry, drop, key, data, ts);
    match r
    case Done => events' == PublishedAll(events, es + [IndexEvent(me, ts + 1, rotated)]) && index' == rotated
    case Broken(n) =>
        n <= |es| && events' == PublishedAll(events, es[..n]) && index' == (if n < |es| then index else rotated)
    case Refused(_) => false
  }

  /** What an unfinished or finished rotation leaves on the relay and in memory. */
  ghost predicate RotationRun(me: Pub, events: seq<Event>, index: Index, drawn: nat, scope: ScopeId, drop: seq<Pub>,
                              ts: int, make: EventMaker, answered: bool, r: Outcome, events': seq<Event>, index': Index)
  {
    if scope !in Scopes(index.issued) then r == Refused(NotIndexed) && events' == events && index' == index
    else
      var entry := index.issued[EntryAt(index.issued, scope)];
      match FetchAnswered(events, me, scope, entry.v, entry.key, answered)
      case Read(_, data) =>
        RotationTail(me, events, index, entry, drop, drawn, data, ts, AfterRotation(index, scope, drop, drawn, make),
                     r, events', index')
      case _ => r == Refused(NotReadable) && events' == events && index' == index
  }

  class Console {
    const relay: Relay
    const me: Pub
    var index: Index
    var drawn: nat

    constructor (relay: Relay, me: Pub, index: Index, drawn: nat)
      ensures this.relay == relay && this.me == me && this.index == index && this.drawn == drawn
    {
      this.relay, this.me, this.index, this.drawn := relay, me, index, drawn;
    }

    /** `rotateWithTerms`: the new data set first, then a grant for each survivor. */
    method RotateWithTerms(entry: IssuedEntry, drop: seq<Pub>, rows: seq<Row>, key: Key, data: Payload, ts: int)
      returns (ok: bool, sent: nat)
      requires forall p | p in entry.grantees ::
               TermsInRows(rows, entry.scope, p) == TermsOf(index, Pair(entry.scope, p))
      modifies relay
      ensures var es := RotationEvents(me, index, entry, drop, key, data, ts);
              && sent <= |es| && (ok <==> sent == |es|) && (ok || relay.LastLost())
              && relay.events == PublishedAll(old(relay.events), es[..sent])
    {
      hide Published, PublishedAll, RotationEvents, Filter;
      ghost var before, es := relay.events, RotationEvents(me, index, entry, drop, key, data, ts);
      var survivors := Survivors(entry, drop);
      var rotated := RotatedEntry(entry, drop, key);
      PublishedPrefix(before, es, 0);
      sent := 0;
      ok := relay.Publish(SetEvent(me, entry.scope, ts, entry.v + 1, key, data));
      if !ok { return; }
      sent := 1;
      for i := 0 to |survivors|
        invariant ok && sent == i + 1 && relay.events == PublishedAll(before, es[..sent])
      {
        var p := survivors[i];
        assert p in survivors;
        PublishedPrefix(before, es, sent);
        ok := relay.Publish(GrantEvent(p, GrantOf(me, rotated, TermsInRows(rows, entry.scope, p))));
        if !ok { return; }
        sent := sent + 1;
      }
    }

    /** `rotateDropping`: read back, rotate past `drop`, record the move in the index and the log, save once. */
    method RotateDropping(scope: ScopeId, drop: seq<Pub>, now: int, ts: int, make: EventMaker, answered: bool)
      returns (r: Outcome)
      requires UniqueScopes(index.issued)
      modifies relay, this`index, this`drawn
      ensures RotationRun(me, old(relay.events), old(index), old(drawn), scope, drop, ts, make, answered, r,
                          relay.events, index)
      ensures drawn == (if r.Refused? then old(drawn) else old(drawn) + 1) && (r.Broken? ==> relay.LastLost())
    {
      hide PublishedAll, Published, Derive, FetchAnswered, UniqueScopes, RotationTail;
      var at := EntryAt(index.issued, scope);
      if at == |index.issued| { return Refused(NotIndexed); }
      var entry := index.issued[at];
      var res := FetchAnswered(relay.events, me, scope, entry.v, entry.key, answered);
      if !res.Read? { return Refused(NotReadable); }
      var rows := DeriveDelegations(index, now);
      SurvivorTerms(index, now, at);
      var key := drawn;
      drawn := drawn + 1;
      r := PublishRotation(entry, drop, rows, key, res.data, ts, make(entry, |Survivors(entry, drop)|));
    }

    /** From the read-back on: publish, record, save. */
    method PublishRotation(entry: IssuedEntry, drop: seq<Pub>, rows: seq<Row>, key: Key, data: Payload, ts: int,
                           log: seq<LedgerEvent>)
      returns (r: Outcome)
      requires forall p | p in entry.grantees ::
               TermsInRows(rows, entry.scope, p) == TermsOf(index, Pair(entry.scope, p))
      modifies relay, this`index
      ensures RotationTail(me, old(relay.events), old(index), entry, drop, key, data, ts,
                           Index(Replaced(old(index).issued, RotatedEntry(entry, drop, key)),
                                 AppendAll(old(index).ledger, log), old(index).children), r, relay.events, index)
      ensures !r.Refused?
      ensures r.Broken? ==> relay.LastLost()
    {
      hide PublishedAll, Published, RotationEvents, AppendAll, Replaced;
      ghost var before, es := relay.events, RotationEvents(me, index, entry, drop, key, data, ts);
      var ok, sent := RotateWithTerms(entry, drop, rows, key, data, ts);
      if !ok { return Broken(sent); }
      RecordRotation(entry, drop, key, log);
      assert es[..|es|] == es;
      OneMorePublish(before, es, IndexEvent(me, ts + 1, index));
      ok := relay.Publish(IndexEvent(me, ts + 1, index));
      if !ok { return Broken(sent); }
      return Done;
    }

    /** The in-memory half: the new entry in place of the old one, then the events, one by one. */
    method RecordRotation(entry: IssuedEntry, drop: seq<Pub>, key: Key, log: seq<LedgerEvent>)
      modifies this`index
      ensures index == Index(Replaced(old(index).issued, RotatedEntry(entry, drop, key)),
                             AppendAll(old(index).ledger, log), old(index).children)
    {
      var newLog := index.ledger;
      for i := 0 to |log|
        invariant newLog == AppendAll(index.ledger, log[..i])
      {
        assert log[..i + 1][..i] == log[..i];
        newLog := AppendLedger(newLog, log[i]);
      }
      assert log[..|log|] == log;
      index := Index(Replaced(index.issued, RotatedEntry(entry, drop, key)), newLog, index.children);
    }

    /** `runExpiryRotation`. */
    method RunExpiryRotation(item: PlanItem, now: int, at: int, ts: int, answered: bool) returns (r: Outcome)
      requires UniqueScopes(index.issued)
      modifies relay, this`index, this`drawn
      ensures RotationRun(me, old(relay.events), old(index), old(drawn), item.scope, item.expired, ts,
                          ExpiryLog(at, |item.expired|), answered, r, relay.events, index)
      ensures drawn == (if r.Refused? then old(drawn) else old(drawn) + 1)
      ensures r.Broken? ==> relay.LastLost()
    {
      r := RotateDropping(item.scope, item.expired, now, ts, ExpiryLog(at, |item.expired|), answered);
    }

    /** `runRelinquishRotation`. */
    method RunRelinquishRotation(item: Item, now: int, at: int, ts: int, answered: bool) returns (r: Outcome)
      requires UniqueScopes(index.issued)
      modifies relay, this`index, this`drawn
      ensures RotationRun(me, old(relay.events), old(index), old(drawn), item.scope, [item.agent], ts,
                          RelinquishLog(at, item), answered, r, relay.events, index)
      ensures drawn == (if r.Refused? then old(drawn) else old(drawn) + 1)
      ensures r.Broken? ==> relay.LastLost()
    {
      r := RotateDropping(item.scope, [item.agent], now, ts, RelinquishLog(at, item), answered);
    }

    /** Revoke now; the courtesy notice goes out only after the rotation is complete. */
    method RevokeNow(scope: ScopeId, agent: Pub, reason: Option<string>, now: int, at: int, ts: int, answered: bool)
      returns (r: Outcome, notified: bool)
      requires UniqueScopes(index.issued)
      modifies relay, this`index, this`drawn
      ensures exists events ::
                && RotationRun(me, old(relay.events), old(index), old(drawn), scope, [agent], ts,
                               RevokeLog(at, agent, reason), answered, r, events, index)
                && relay.events == if notified then Published(events, NoticeEvent(me, agent, scope)) else events
      ensures drawn == (if r.Refused? then old(drawn) else old(drawn) + 1)
      ensures notified ==> r == Done && NonEmpty(reason).Some?
      ensures r.Broken? || (r == Done && NonEmpty(reason).Some? && !notified) ==> relay.LastLost()
    {
      r := RotateDropping(scope, [agent], now, ts, RevokeLog(at, agent, reason), answered);
      notified := false;
      if r == Done && NonEmpty(reason).Some? {
        notified := relay.Publish(NoticeEvent(me, agent, scope));
      }
    }

    /** `addGrantee`: the same key and the same value for one more identity. */
    method AddGrantee(scope: ScopeId, pub: Pub, terms: Terms, at: int, ts: int) returns (r: Outcome)
      modifies relay, this`index
      ensures AddRun(me, old(relay.events), old(index), scope, pub, terms, at, ts, r, relay.events, index)
      ensures r.Broken? ==> relay.LastLost()
    {
      hide PublishedAll, Published;
      var i := EntryAt(index.issued, scope);
      if i == |index.issued| { return Refused(NotIndexed); }
      var entry := index.issued[i];
      if pub in entry.grantees { return Refused(AlreadyHolds); }
      ghost var before := relay.events;
      OneMorePublish(before, [], GrantEvent(pub, GrantOf(me, entry, Some(terms))));
      assert [] + [GrantEvent(pub, GrantOf(me, entry, Some(terms)))]
             == [GrantEvent(pub, GrantOf(me, entry, Some(terms)))];
      PublishedNone(before);
      var ok := relay.Publish(GrantEvent(pub, GrantOf(me, entry, Some(terms))));
      if !ok { return Broken(0); }
      index := AddedIndex(index, scope, pub, terms, at);
      OneMorePublish(before, [GrantEvent(pub, GrantOf(me, entry, Some(terms)))], IndexEvent(me, ts, index));
      ok := relay.Publish(IndexEvent(me, ts, index));
      if !ok { return Broken(1); }
      return Done;
    }

    /** The issue step: publish the scope, deliver the grant, record both in one save. */
    method IssueGrant(scope: ScopeId, name: string, agent: Pub, terms: Terms, data: Payload, at: int, ts: int)
      returns (r: Outcome)
      modifies relay, this`index, this`drawn
      ensures IssueRun(me, old(relay.events), old(index), old(drawn), scope, name, agent, terms, data, at, ts, r,
                       relay.events, index)
      ensures drawn == old(drawn) + 1
      ensures r.Broken? ==> relay.LastLost()
    {
      hide PublishedAll, Published;
      ghost var before := relay.events;
      var key := drawn;
      drawn := drawn + 1;
      var entry := IssuedEntry(scope, name, 1, key, [agent]);
      var sealed := SetEvent(me, scope, ts, 1, key, data);
      var wrap := GrantEvent(agent, GrantOf(me, entry, Some(terms)));
      PublishedNone(before);
      OneMorePublish(before, [], sealed);
      assert [] + [sealed] == [sealed] && [sealed] + [wrap] == [sealed, wrap];
      var ok := relay.Publish(sealed);
      if !ok { return Broken(0); }
      OneMorePublish(before, [sealed], wrap);
      ok := relay.Publish(wrap);
      if !ok { return Broken(1); }
      index := IssuedIndex(index, entry, agent, terms, at);
      OneMorePublish(before, [sealed, wrap], IndexEvent(me, ts + 1, index));
      ok := relay.Publish(IndexEvent(me, ts + 1, index));
      if !ok { return Broken(2); }
      return Done;
    }

    /** The daemon's sweep: reload, plan, rotate item by item; a failed item is skipped and the rest go on. */
    method SweepExpired(now: int, at: int, ts: int, answered: bool)
      returns (skipped: set<ScopeId>, ghost loaded: Index, ghost stages: seq<Stage>, ghost turns: seq<Turn>)
      requires UniqueScopes(LoadIndex(relay.events, me).issued)
      modifies relay, this`index, this`drawn
      ensures loaded == LoadAnswered(old(relay.events), me, answered)
      ensures SweepBetween(me, ExpiryPlan(loaded, now), at, ts, stages, turns, skipped,
                           Stage(old(relay.events), loaded, old(drawn)), Stage(relay.events, index, drawn))
      ensures OnlySkippedAreDue(loaded, index, now, skipped)
    {
      AnsweredUnique(relay.events, me, answered);
      hide OnlySkippedAreDue, UniqueScopes, ExpiryPlan, LoadAnswered, SweepBetween, LoadIndex;
      index := LoadAnswered(relay.events, me, answered);
      loaded := index;
      var plan := ExpiryRotationPlan(index, now);
      skipped, stages, turns := RotateEach(plan, now, at, ts);
      SweepEnds(me, loaded, now, at, ts, stages, turns, skipped, Stage(old(relay.events), loaded, old(drawn)),
                Stage(relay.events, index, drawn));
    }

    /** The items of a sweep, one after the other. */
    method RotateEach(plan: seq<PlanItem>, now: int, at: int, ts: int)
      returns (skipped: set<ScopeId>, ghost stages: seq<Stage>, ghost turns: seq<Turn>)
      requires UniqueScopes(index.issued)
      modifies relay, this`index, this`drawn
      ensures SweepBetween(me, plan, at, ts, stages, turns, skipped,
                           Stage(old(relay.events), old(index), old(drawn)), Stage(relay.events, index, drawn))
    {
      hide RotationRun, UniqueScopes;
      stages, turns, skipped := [Stage(relay.events, index, drawn)], [], {};
      for i := 0 to |plan|
        invariant |stages| == i + 1 && |turns| == i && stages[0] == Stage(old(relay.events), old(index), old(drawn))
        invariant stages[i] == Stage(relay.events, index, drawn) && UniqueScopes(index.issued)
        invariant forall j | 0 <= j < i :: SweepTurn(me, plan[j], at, ts, stages[j], turns[j], stages[j + 1])
        invariant skipped == Failing(plan[..i], turns)
      {
        var readBack: bool := *;
        var r := RunExpiryRotation(plan[i], now, at, ts, readBack);
        if r != Done {
          skipped := skipped + {plan[i].scope};
        }
        ghost var stage := Stage(relay.events, index, drawn);
        TurnKeepsUnique(me, plan[i], at, ts, stages[i], Turn(readBack, r), stage);
        OneMoreTurn(plan, turns, i, Turn(readBack, r));
        stages := stages + [stage];
        turns := turns + [Turn(readBack, r)];
      }
      assert plan[..|plan|] == plan;
    }
  }

  /** What a sweep looks at between two items, and how an item went: whether its read-back was answered, and its end. */
  datatype Stage = Stage(events: seq<Event>, index: Index, drawn: nat)

  datatype Turn = Turn(answered: bool, outcome: Outcome)

  /** One item: a rotation past its lapsed holders that logs the expiry. */
  ghost predicate SweepTurn(me: Pub, item: PlanItem, at: int, ts: int, before: Stage, turn: Turn, after: Stage) {
    RotationRun(me, before.events, before.index, before.drawn, item.scope, item.expired, ts,
                ExpiryLog(at, |item.expired|), turn.answered, turn.outcome, after.events, after.index)
  }

  ghost predicate SweepRun(me: Pub, plan: seq<PlanItem>, at: int, ts: int, stages: seq<Stage>, turns: seq<Turn>) {
    && |stages| == |plan| + 1 && |turns| == |plan|
    && forall j | 0 <= j < |plan| :: SweepTurn(me, plan[j], at, ts, stages[j], turns[j], stages[j + 1])
  }

  /** A whole sweep, from one stage to another, skipping these scopes. */
  ghost predicate SweepBetween(me: Pub, plan: seq<PlanItem>, at: int, ts: int, stages: seq<Stage>, turns: seq<Turn>,
                               skipped: set<ScopeId>, first: Stage, last: Stage)
  {
    && SweepRun(me, plan, at, ts, stages, turns) && stages[0] == first && stages[|plan|] == last
    && skipped == Failing(plan, turns)
  }

  /** The scopes of the items that did not finish. */
  ghost function Failing(plan: seq<PlanItem>, turns: seq<Turn>): set<ScopeId>
    requires |plan| == |turns|
  {
    set j | 0 <= j < |plan| && turns[j].outcome != Done :: plan[j].scope
  }

  lemma OneMoreTurn(plan: seq<PlanItem>, turns: seq<Turn>, i: nat, turn: Turn)
    requires i == |turns| < |plan|
    ensures Failing(plan[..i + 1], turns + [turn])
            == Failing(plan[..i], turns) + if turn.outcome == Done then {} else {plan[i].scope}
  {
    var fewer, more := Failing(plan[..i], turns), Failing(plan[..i + 1], turns + [turn]);
    forall s | s in fewer
      ensures s in more
    {
      var j :| 0 <= j < i && turns[j].outcome != Done && plan[..i][j].scope == s;
      assert (turns + [turn])[j] == turns[j] && plan[..i + 1][j] == plan[j];
    }
    if turn.outcome != Done {
      assert (turns + [turn])[i] == turn && plan[..i + 1][i] == plan[i];
    }
  }

  lemma TurnKeepsUnique(me: Pub, item: PlanItem, at: int, ts: int, before: Stage, turn: Turn, after: Stage)
    requires SweepTurn(me, item, at, ts, before, turn, after) && UniqueScopes(before.index.issued)
    ensures UniqueScopes(after.index.issued)
  {
    var moved := RotationSteps(me, before.events, before.index, before.drawn, item, ts, at, turn.answered, turn.outcome,
                               after.events, after.index);
  }

  /** After a sweep only holders in skipped scopes can still be due, and nobody else lost a scope. */
  ghost predicate OnlySkippedAreDue(before: Index, after: Index, now: int, skipped: set<ScopeId>) {
    && (forall k | Due(after, now, k) :: Due(before, now, k) && k.scope in skipped)
    && (forall k | Held(before, k) && !Due(before, now, k) :: Held(after, k))
    && (skipped == {} ==> ExpiryPlan(after, now) == [] && forall k ::
          Held(after, k) <==> Held(before, k) && !Due(before, now, k))
  }

  lemma SweepEnds(me: Pub, loaded: Index, now: int, at: int, ts: int, stages: seq<Stage>, turns: seq<Turn>,
                  skipped: set<ScopeId>, first: Stage, last: Stage)
    requires UniqueScopes(loaded.issued) && first.index == loaded
    requires SweepBetween(me, ExpiryPlan(loaded, now), at, ts, stages, turns, skipped, first, last)
    ensures OnlySkippedAreDue(loaded, last.index, now, skipped)
  {
    hide Due, Held, UniqueScopes, SweepTurn, SweepStep, ExpiryPlan, Failing;
    var plan := ExpiryPlan(loaded, now);
    var indices, rotated := StagesSweep(me, plan, at, ts, stages, turns);
    SweepSummary(loaded, now, indices, rotated, skipped);
  }

  /** A sweep's run, seen as moves of the index. */
  lemma StagesSweep(me: Pub, plan: seq<PlanItem>, at: int, ts: int, stages: seq<Stage>, turns: seq<Turn>)
    returns (indices: seq<Index>, rotated: seq<bool>)
    requires SweepRun(me, plan, at, ts, stages, turns) && UniqueScopes(stages[0].index.issued)
    ensures Sweep(plan, indices, rotated)
    ensures indices[0] == stages[0].index && indices[|plan|] == stages[|plan|].index
    ensures forall j | 0 <= j < |plan| && !rotated[j] :: plan[j].scope in Failing(plan, turns)
  {
    hide RotationRun, UniqueScopes, SweepStep;
    indices, rotated := [stages[0].index], [];
    for i := 0 to |plan|
      invariant |indices| == i + 1 && |rotated| == i && indices[0] == stages[0].index
      invariant indices[i] == stages[i].index && UniqueScopes(stages[i].index.issued)
      invariant forall j | 0 <= j < i :: SweepStep(indices[j], plan[j], rotated[j], indices[j + 1])
      invariant forall j | 0 <= j < i && !rotated[j] :: turns[j].outcome != Done
    {
      assert SweepTurn(me, plan[i], at, ts, stages[i], turns[i], stages[i + 1]);
      var moved := RotationSteps(me, stages[i].events, stages[i].index, stages[i].drawn, plan[i], ts, at,
                                 turns[i].answered, turns[i].outcome, stages[i + 1].events, stages[i + 1].index);
      indices := indices + [stages[i + 1].index];
      rotated := rotated + [moved];
    }
  }

  lemma PublishedNone(events: seq<Event>)
    ensures PublishedAll(events, []) == events
  {
  }

  function AddedIndex(index: Index, scope: ScopeId, pub: Pub, terms: Terms, at: int): Index
    requires scope in Scopes(index.issued)
  {
    var i := EntryAt(index.issued, scope);
    var e := index.issued[i];
    Index(index.issued[i := e.(grantees := e.grantees + [pub])],
          AppendLedger(index.ledger, Granted(at, scope, pub, e.v, Some(terms), e.scope_name)), index.children)
  }

  function IssuedIndex(index: Index, entry: IssuedEntry, agent: Pub, terms: Terms, at: int): Index {
    Index(index.issued + [entry],
          AppendLedger(index.ledger, Granted(at, entry.scope, agent, 1, Some(terms), entry.scope_name)), index.children)
  }

  ghost predicate AddRun(me: Pub, events: seq<Event>, index: Index, scope: ScopeId, pub: Pub, terms: Terms, at: int,
                         ts: int, r: Outcome, events': seq<Event>, index': Index)
  {
    if scope !in Scopes(index.issued) then r == Refused(NotIndexed) && events' == events && index' == index
    else
      var entry := index.issued[EntryAt(index.issued, scope)];
      if pub in entry.grantees then r == Refused(AlreadyHolds) && events' == events && index' == index
      else
        var wrap := GrantEvent(pub, GrantOf(me, entry, Some(terms)));
        var added := AddedIndex(index, scope, pub, terms, at);
        match r
        case Done => events' == PublishedAll(events, [wrap] + [IndexEvent(me, ts, added)]) && index' == added
        case Broken(n) =>
            n <= 1 && events' == PublishedAll(events, if n == 0 then [] else [wrap])
                && index' == (if n == 0 then index else added)
        case Refused(_) => false
  }

  ghost predicate IssueRun(me: Pub, events: seq<Event>, index: Index, drawn: nat, scope: ScopeId, name: string,
                           agent: Pub, terms: Terms, data: Payload, at: int, ts: int, r: Outcome, events': seq<Event>,
                               index': Index)
  {
    var entry := IssuedEntry(scope, name, 1, drawn, [agent]);
    var es := [SetEvent(me, scope, ts, 1, drawn, data), GrantEvent(agent, GrantOf(me, entry, Some(terms)))];
    var recorded := IssuedIndex(index, entry, agent, terms, at);
    match r
    case Done => events' == PublishedAll(events, es + [IndexEvent(me, ts + 1, recorded)]) && index' == recorded
    case Broken(n) => n <= 2 && index' == (if n < 2 then index else recorded)
      && events' == PublishedAll(events, if n == 0 then [] else if n == 1 then [es[0]] else es)
    case Refused(_) => false
  }

  /** One item of the sweep, and whether it changed the index. */
  lemma RotationSteps(me: Pub, events: seq<Event>, index: Index, drawn: nat, item: PlanItem, ts: int, at: int,
                      answered: bool, r: Outcome, events': seq<Event>, index': Index) returns (moved: bool)
    requires UniqueScopes(index.issued)
    requires RotationRun(me, events, index, drawn, item.scope, item.expired, ts, ExpiryLog(at, |item.expired|),
                         answered, r, events', index')
    ensures SweepStep(index, item, moved, index')
    ensures UniqueScopes(index'.issued)
    ensures r == Done ==> moved
  {
    hide PublishedAll, RotationEvents, UniqueScopes, Replaced;
    moved := false;
    if item.scope in Scopes(index.issued)
       && index' == AfterRotation(index, item.scope, item.expired, drawn, ExpiryLog(at, |item.expired|)) {
      var entry := index.issued[EntryAt(index.issued, item.scope)];
      var log := ExpiryEvents(at, entry, |item.expired|, |Survivors(entry, item.expired)|);
      assert NothingGranted(log) && index' == RotatedIndex(index, item.scope, item.expired, drawn, log);
      ReplacedScopes(index.issued, RotatedEntry(entry, item.expired, drawn));
      moved := true;
    }
  }

  lemma AnsweredUnique(events: seq<Event>, me: Pub, answered: bool)
    requires UniqueScopes(LoadIndex(events, me).issued)
    ensures UniqueScopes(LoadAnswered(events, me, answered).issued)
  {
  }

  lemma SweepSummary(index: Index, now: int, indices: seq<Index>, rotated: seq<bool>, skipped: set<ScopeId>)
    requires UniqueScopes(index.issued)
    requires Sweep(ExpiryPlan(index, now), indices, rotated) && indices[0] == index
    requires forall j | 0 <= j < |rotated| && !rotated[j] :: ExpiryPlan(index, now)[j].scope in skipped
    ensures OnlySkippedAreDue(index, indices[|indices| - 1], now, skipped)
  {
    hide Due, Held, UniqueScopes, ExpiryPlan, SweepStep;
    var plan, n := ExpiryPlan(index, now), |rotated|;
    var after := indices[n];
    SweepConverges(index, now, indices, rotated);
    PlanIsExact(index, now);
    forall k
      ensures Due(after, now, k) ==> Due(index, now, k)
      ensures Held(after, k) <==> Held(index, k) && !DroppedBy(plan, rotated, n, k)
      ensures Due(index, now, k) ==> Held(index, k)
    {
      SweepSoFar(plan, indices, rotated, now, n, k);
      DueIsHeld(index, now, k);
    }
    if skipped == {} {
      forall k | Due(index, now, k)
        ensures DroppedBy(plan, rotated, n, k)
      {
        var i :| 0 <= i < |plan| && plan[i].scope == k.scope;
        assert Pair(plan[i].scope, k.agent) == k && k.agent in plan[i].expired;
        assert rotated[i];
      }
    }
  }

  lemma SurvivorTerms(index: Index, now: int, at: nat)
    requires UniqueScopes(index.issued) && at < |index.issued|
    requires at == EntryAt(index.issued, index.issued[at].scope)
    ensures forall p | p in index.issued[at].grantees ::
              TermsInRows(Derive(index, now), index.issued[at].scope, p)
                  == TermsOf(index, Pair(index.issued[at].scope, p))
  {
    var entry := index.issued[at];
    assert entry in index.issued;
    MapIsFind(index.issued, entry.scope);
    forall p | p in entry.grantees
      ensures TermsInRows(Derive(index, now), entry.scope, p) == TermsOf(index, Pair(entry.scope, p))
    {
      HolderTerms(index, now, Pair(entry.scope, p));
    }
  }
}
