/** How a delegation reads right after the rotation that ended it, and how all the others read. */
module Arcs {
  import opened Options
  import opened JsMaps
  import opened Records
  import opened Entries
  import opened LedgerLog
  import opened Planners
  import opened Rotation

  /** `runExpiryRotation`. */
  function ExpiryEvents(at: int, entry: IssuedEntry, expired: nat, survivors: nat): seq<LedgerEvent> {
    [ExpiredRotated(at, entry.scope, entry.v, entry.v + 1, expired, survivors)]
  }

  /** Revoke now, in console/ledger.mjs. */
  function RevokeEvents(at: int, entry: IssuedEntry, agent: Pub, reason: Option<string>,
                        survivors: nat): seq<LedgerEvent> {
    [Revoked(at, entry.scope, agent, entry.v, NonEmpty(reason), NonEmpty(reason).Some?),
     Rotated(at, entry.scope, entry.v, entry.v + 1, survivors)]
  }

  /** `runRelinquishRotation`. */
  function RelinquishEvents(at: int, entry: IssuedEntry, agent: Pub, reason: Option<string>, destroyed_at: int,
                            survivors: nat): seq<LedgerEvent> {
    [Relinquished(at, entry.scope, agent, entry.v, NonEmpty(reason), destroyed_at),
     Rotated(at, entry.scope, entry.v, entry.v + 1, survivors)]
  }

  lemma {:induction false} NoTrim(log: seq<LedgerEvent>, events: seq<LedgerEvent>)
    requires |log| + |events| <= LEDGER_CAP
    ensures AppendAll(log, events) == log + events
    decreases |events|
  {
    if events != [] {
      NoTrim(log, events[..|events| - 1]);
    }
  }

  lemma {:induction false} SamePairs(log: seq<LedgerEvent>, events: seq<LedgerEvent>, k: Pair)
    requires NothingGranted(events)
    ensures GrantedPairs(log + events) == GrantedPairs(log)
    ensures LatestGranted(log + events, k) == LatestGranted(log, k)
    decreases |events|
  {
    if events == [] {
      assert log + events == log;
    } else {
      var longer := log + events;
      assert longer[..|longer| - 1] == log + events[..|events| - 1];
      assert longer[|longer| - 1] in events;
      SamePairs(log, events[..|events| - 1], k);
    }
  }

  /** What is known about a delegation survives a rotation, unless it was known from the holder list alone. */
  lemma InfoAfter(index: Index, scope: ScopeId, drop: seq<Pub>, key: Key, events: seq<LedgerEvent>, k: Pair)
    requires scope in Scopes(index.issued) && UniqueScopes(index.issued)
    requires NothingGranted(events) && |index.ledger| + |events| <= LEDGER_CAP
    ensures var after := RotatedIndex(index, scope, drop, key, events);
            Get(AllPairs(after), k) ==
            if LatestGranted(index.ledger, k).Some? || Held(after, k) then Get(AllPairs(index), k) else None
  {
    var entry := RotatedEntry(index.issued[EntryAt(index.issued, scope)], drop, key);
    var after := RotatedIndex(index, scope, drop, key, events);
    NoTrim(index.ledger, events);
    SamePairs(index.ledger, events, k);
    GrantedPairsAre(index.ledger, k);
    HeldAfter(index, scope, drop, key, events, k);
    ReplacedMap(index.issued, entry, k.scope);
    MapIsFind(index.issued, scope);
    IssuedMapIs(index.issued, k.scope);
    IssuedMapIs(after.issued, k.scope);
    AddEntriesAre(GrantedPairs(index.ledger), IssuedMap(index.issued), k);
    AddEntriesAre(GrantedPairs(index.ledger), IssuedMap(after.issued), k);
  }

  /** The generation shown next to a row of the rotated scope moves on; other scopes are untouched. */
  function WithGeneration(row: Row, scope: ScopeId, v: nat): Row {
    if row.scope == scope then row.(v := Some(v)) else row
  }

  /** A rotation in which only `status` can move: what remains is to read the status off the log. */
  lemma RowAfter(index: Index, scope: ScopeId, drop: seq<Pub>, key: Key, events: seq<LedgerEvent>, t: int, k: Pair)
    requires scope in Scopes(index.issued) && UniqueScopes(index.issued)
    requires NothingGranted(events) && |index.ledger| + |events| <= LEDGER_CAP
    ensures var after := RotatedIndex(index, scope, drop, key, events);
            var v := index.issued[EntryAt(index.issued, scope)].v + 1;
            match RowOf(index, t, k)
            case None => RowOf(after, t, k) == None
            case Some(row) =>
              if Held(after, k) then RowOf(after, t, k) == Some(WithGeneration(row, scope, v))
              else if LatestGranted(index.ledger, k).None? then RowOf(after, t, k) == None
              else RowOf(after, t, k) ==
                   Some(WithGeneration(row, scope, v).(status := DroppedStatus(index.ledger + events, k,
                       TermsOf(index, k))))
  {
    hide AllPairs, IssuedMap, DroppedStatus, LatestGranted, GrantedPairs;
    var entry := RotatedEntry(index.issued[EntryAt(index.issued, scope)], drop, key);
    NoTrim(index.ledger, events);
    InfoAfter(index, scope, drop, key, events, k);
    AllPairsAre(index, k);
    HeldAfter(index, scope, drop, key, events, k);
    ReplacedMap(index.issued, entry, k.scope);
    MapIsFind(index.issued, scope);
  }

  /** How a dropped delegation reads. */
  lemma DroppedReads(index: Index, t: int, k: Pair)
    requires RowOf(index, t, k).Some? && !Held(index, k)
    ensures RowOf(index, t, k).value.status == DroppedStatus(index.ledger, k, TermsOf(index, k))
    ensures LatestGranted(index.ledger, k).Some?
  {
    AllPairsAre(index, k);
  }

  lemma RowScope(index: Index, t: int, k: Pair)
    ensures RowOf(index, t, k).Some? ==> RowOf(index, t, k).value.scope == k.scope
    ensures Held(index, k) ==> RowOf(index, t, k).Some?
  {
    AllPairsAre(index, k);
  }

  lemma StatusOfOne(log: seq<LedgerEvent>, a: LedgerEvent, k: Pair, terms: Option<Terms>)
    ensures DroppedStatus(log + [a], k, terms) ==
            match Terminal(a, k, terms) { case Some(s) => s case None => DroppedStatus(log, k, terms) }
  {
  }

  lemma StatusOfTwo(log: seq<LedgerEvent>, a: LedgerEvent, b: LedgerEvent, k: Pair, terms: Option<Terms>)
    requires Terminal(b, k, terms).None?
    ensures DroppedStatus(log + [a, b], k, terms) ==
            match Terminal(a, k, terms) { case Some(s) => s case None => DroppedStatus(log, k, terms) }
  {
    assert log + [a, b] == (log + [a]) + [b];
    StatusOfOne(log + [a], b, k, terms);
    StatusOfOne(log, a, k, terms);
  }

  /** The untouched delegations: every survivor and every other scope reads as before, one generation on. */
  lemma OthersReadAsBefore(index: Index, scope: ScopeId, drop: seq<Pub>, key: Key, events: seq<LedgerEvent>, t: int,
                           k: Pair)
    requires scope in Scopes(index.issued) && UniqueScopes(index.issued)
    requires NothingGranted(events) && |index.ledger| + |events| <= LEDGER_CAP
    requires forall ev | ev in events :: ev.scope == scope
    requires k.scope != scope || (Held(index, k) && k.agent !in drop)
    ensures var after := RotatedIndex(index, scope, drop, key, events);
            var v := index.issued[EntryAt(index.issued, scope)].v + 1;
            RowOf(after, t, k) == match RowOf(index, t, k)
                                  case Some(row) => Some(WithGeneration(row, scope, v))
                                  case None => None
  {
    hide RowOf, Held, DroppedStatus, LatestGranted, TermsOf, RotatedIndex;
    RowAfter(index, scope, drop, key, events, t, k);
    HeldAfter(index, scope, drop, key, events, k);
    RowScope(index, t, k);
    if k.scope != scope && RowOf(index, t, k).Some? && !Held(index, k) {
      DroppedReads(index, t, k);
      OtherScopesStatus(index.ledger, events, k, TermsOf(index, k));
    }
  }

  lemma {:induction false} OtherScopesStatus(log: seq<LedgerEvent>, events: seq<LedgerEvent>, k: Pair,
                                             terms: Option<Terms>)
    requires forall ev | ev in events :: ev.scope != k.scope
    ensures DroppedStatus(log + events, k, terms) == DroppedStatus(log, k, terms)
    decreases |events|
  {
    if events == [] {
      assert log + events == log;
    } else {
      var fewer, last := events[..|events| - 1], events[|events| - 1];
      assert log + events == (log + fewer) + [last];
      assert last in events;
      OtherScopesStatus(log, fewer, k, terms);
      StatusOfOne(log + fewer, last, k, terms);
    }
  }

  /** The ledger after a dropped delegation: its row ends as `status`, or is gone if no grant of it is on record. */
  ghost predicate EndsAs(before: Index, after: Index, t: int, k: Pair, status: Status) {
    if LatestGranted(before.ledger, k).Some?
    then RowOf(after, t, k).Some? && RowOf(after, t, k).value.status == status
    else RowOf(after, t, k).None?
  }

  /** Expiry: what is dropped because it is due ends as past its deadline. A pair that ended earlier in this scope is
      relabelled exactly when its own deadline is over by then. */
  lemma ExpiryArc(index: Index, scope: ScopeId, drop: seq<Pub>, key: Key, at: int, expired: nat, survivors: nat,
                  now: int, t: int, k: Pair)
    requires scope in Scopes(index.issued) && UniqueScopes(index.issued) && |index.ledger| + 1 <= LEDGER_CAP
    requires k.scope == scope && now <= at
    requires (forall a | a in drop :: Due(index, now, Pair(scope, a)))
    ensures var after := RotatedIndex(index, scope, drop, key,
                                      ExpiryEvents(at, index.issued[EntryAt(index.issued, scope)], expired, survivors));
            && (k.agent in drop ==> EndsAs(index, after, t, k, PastDeadline) && RowOf(after, t, k).Some?)
            && (!Held(index, k) && RowOf(index, t, k).Some? ==>
                  EndsAs(index, after, t, k,
                         if DeadlineOf(TermsOf(index, k)).Some? && DeadlineOf(TermsOf(index, k)).value <= at
                             then PastDeadline
                         else RowOf(index, t, k).value.status))
  {
    hide RowOf, Held, DroppedStatus, LatestGranted, TermsOf, RotatedIndex;
    var events := ExpiryEvents(at, index.issued[EntryAt(index.issued, scope)], expired, survivors);
    RowAfter(index, scope, drop, key, events, t, k);
    HeldAfter(index, scope, drop, key, events, k);
    RowScope(index, t, k);
    if RowOf(index, t, k).Some? && !Held(index, k) { DroppedReads(index, t, k); }
    StatusOfOne(index.ledger, events[0], k, TermsOf(index, k));
    if k.agent in drop {
      DueIsGranted(index, now, k);
    }
  }

  lemma DueIsGranted(index: Index, now: int, k: Pair)
    requires Due(index, now, k)
    ensures LatestGranted(index.ledger, k).Some? && Held(index, k)
  {
  }

  /** An event that ends one agent's delegation, then the rotation: that pair ends as said, earlier endings stay. */
  lemma OneAgentArc(index: Index, scope: ScopeId, agent: Pub, key: Key, ending: LedgerEvent, rotated: LedgerEvent,
                    status: Status, t: int, k: Pair)
    requires scope in Scopes(index.issued) && UniqueScopes(index.issued) && |index.ledger| + 2 <= LEDGER_CAP
    requires k.scope == scope && Held(index, Pair(scope, agent))
    requires rotated.Rotated? && !ending.Granted?
    requires Terminal(ending, k, TermsOf(index, k)) == if k.agent == agent then Some(status) else None
    ensures var after := RotatedIndex(index, scope, [agent], key, [ending, rotated]);
            && (k.agent == agent ==> EndsAs(index, after, t, k, status))
            && (!Held(index, k) && RowOf(index, t, k).Some? ==>
               EndsAs(index, after, t, k, RowOf(index, t, k).value.status))
  {
    hide RowOf, Held, DroppedStatus, LatestGranted, TermsOf, RotatedIndex;
    RowAfter(index, scope, [agent], key, [ending, rotated], t, k);
    HeldAfter(index, scope, [agent], key, [ending, rotated], k);
    RowScope(index, t, k);
    if RowOf(index, t, k).Some? && !Held(index, k) { DroppedReads(index, t, k); }
    StatusOfTwo(index.ledger, ending, rotated, k, TermsOf(index, k));
  }

  /** Revocation: the dropped agent ends as cut off, and every pair that ended earlier keeps its ending. */
  lemma RevokeArc(index: Index, scope: ScopeId, agent: Pub, key: Key, at: int, reason: Option<string>, survivors: nat,
                  t: int, k: Pair)
    requires scope in Scopes(index.issued) && UniqueScopes(index.issued) && |index.ledger| + 2 <= LEDGER_CAP
    requires k.scope == scope && Held(index, Pair(scope, agent))
    ensures var after := RotatedIndex(index, scope, [agent], key,
                                      RevokeEvents(at, index.issued[EntryAt(index.issued, scope)], agent, reason,
                                                   survivors));
            && (k.agent == agent ==> EndsAs(index, after, t, k, CutOff))
            && (!Held(index, k) && RowOf(index, t, k).Some? ==>
               EndsAs(index, after, t, k, RowOf(index, t, k).value.status))
  {
    hide RowOf, Held, TermsOf, RotatedIndex, EndsAs;
    var events := RevokeEvents(at, index.issued[EntryAt(index.issued, scope)], agent, reason, survivors);
    OneAgentArc(index, scope, agent, key, events[0], events[1], CutOff, t, k);
  }

  /** Relinquishment: the agent ends as having handed the delegation back. */
  lemma RelinquishArc(index: Index, scope: ScopeId, agent: Pub, key: Key, at: int, reason: Option<string>,
                      destroyed_at: int, survivors: nat, t: int, k: Pair)
    requires scope in Scopes(index.issued) && UniqueScopes(index.issued) && |index.ledger| + 2 <= LEDGER_CAP
    requires k.scope == scope && Held(index, Pair(scope, agent))
    ensures var after := RotatedIndex(index, scope, [agent], key,
                                      RelinquishEvents(at, index.issued[EntryAt(index.issued, scope)], agent, reason,
                                                       destroyed_at, survivors));
            && (k.agent == agent ==> EndsAs(index, after, t, k, HandedBack))
            && (!Held(index, k) && RowOf(index, t, k).Some? ==>
               EndsAs(index, after, t, k, RowOf(index, t, k).value.status))
  {
    hide RowOf, Held, TermsOf, RotatedIndex, EndsAs;
    var events := RelinquishEvents(at, index.issued[EntryAt(index.issued, scope)], agent, reason, destroyed_at,
                                   survivors);
    OneAgentArc(index, scope, agent, key, events[0], events[1], HandedBack, t, k);
  }
}
