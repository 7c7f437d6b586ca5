/** What the delegator's operations hand out, field by field, and that over a run everybody listed holds its grant under
    the terms on record. */
module Deliveries {
  import opened Options
  import opened Records
  import opened Entries
  import opened Relays
  import opened LedgerLog
  import opened Rotation
  import opened RelinquishPlans
  import opened Consoles
  import opened Lifecycle

  /** Delivered to `p`: this generation of the scope, under its key and name, and with these terms. */
  ghost predicate Handed(events: seq<Event>, me: Pub, p: Pub, scope: ScopeId, name: string, v: nat, key: Key,
                         terms: Option<Terms>)
  {
    exists g: Grant ::
      && GrantEvent(p, g) in events
      && g.publisher == me && g.scope == scope && g.scope_name == name && g.v == v && g.key == key && g.terms == terms
  }

  lemma {:induction false} PublishesStay(events: seq<Event>, es: seq<Event>)
    requires forall e | e in es :: e.signed
    ensures forall e | (e in events || e in es) && ReplaceKey(e).None? :: e in PublishedAll(events, es)
    decreases |es|
  {
    if es != [] {
      PublishesStay(events, es[..|es| - 1]);
      assert forall e | e in es :: e in es[..|es| - 1] || e == es[|es| - 1];
    }
  }

  /** A finished rotation: every survivor holds the next generation under the new key, the old name and the terms on
      record for it, and the entry says so. */
  lemma RotationDelivers(me: Pub, events: seq<Event>, index: Index, drawn: nat, scope: ScopeId, drop: seq<Pub>, ts: int,
                         make: EventMaker, answered: bool, events': seq<Event>, index': Index)
    requires RotationRun(me, events, index, drawn, scope, drop, ts, make, answered, Done, events', index')
    requires UniqueScopes(index.issued)
    ensures scope in Scopes(index.issued)
    ensures var entry := index.issued[EntryAt(index.issued, scope)];
            forall p, terms | p in entry.grantees && p !in drop && OnRecord(index.ledger, scope, p, terms) ::
              Handed(events', me, p, scope, entry.scope_name, entry.v + 1, drawn, terms)
  {
    hide FetchAnswered, PublishedAll, RotationEvents, AppendAll, TermsOf, OnRecord;
    var i := EntryAt(index.issued, scope);
    var entry := index.issued[i];
    var data := FetchAnswered(events, me, scope, entry.v, entry.key, answered).data;
    var es := RotationEvents(me, index, entry, drop, drawn, data, ts);
    PublishesStay(events, es + [IndexEvent(me, ts + 1, index')]);
    forall p, terms | p in entry.grantees && p !in drop && OnRecord(index.ledger, scope, p, terms)
      ensures Handed(events', me, p, scope, entry.scope_name, entry.v + 1, drawn, terms)
    {
      TermsAreOnRecord(index, scope, p);
      SurvivorGrant(me, index, entry, drop, drawn, data, ts, p);
    }
  }

  /** The grant of a survivor, among the publishes of a rotation. */
  lemma SurvivorGrant(me: Pub, index: Index, entry: IssuedEntry, drop: seq<Pub>, key: Key, data: Payload, ts: int,
                      p: Pub)
    requires p in entry.grantees && p !in drop
    ensures GrantEvent(p, Grant(me, entry.scope, entry.scope_name, entry.v + 1, key,
                                TermsOf(index, Pair(entry.scope, p))))
            in RotationEvents(me, index, entry, drop, key, data, ts)
  {
    hide RotationEvents, TermsOf;
    var es, s := RotationEvents(me, index, entry, drop, key, data, ts), Survivors(entry, drop);
    assert p in s;
    var k :| 0 <= k < |s| && s[k] == p;
    assert es[k + 1] == GrantEvent(p, GrantOf(me, RotatedEntry(entry, drop, key),
                                              TermsOf(index, Pair(entry.scope, p))));
  }

  /** And the index: that one entry moved on by a generation, to the new key and without the dropped identities, in
      their old order; the log got the entries of this rotation. */
  lemma RotationRecords(me: Pub, events: seq<Event>, index: Index, drawn: nat, scope: ScopeId, drop: seq<Pub>, ts: int,
                        make: EventMaker, answered: bool, events': seq<Event>, index': Index)
    requires RotationRun(me, events, index, drawn, scope, drop, ts, make, answered, Done, events', index')
    requires UniqueScopes(index.issued) && |index.ledger| <= 500
    ensures scope in Scopes(index.issued)
    ensures var i := EntryAt(index.issued, scope);
            var was, now := index.issued[i], index'.issued[i];
            && index'.issued == index.issued[i := now] && index'.children == index.children
            && now.scope == scope && now.scope_name == was.scope_name && now.v == was.v + 1 && now.key == drawn
            && (forall p :: p in now.grantees <==> p in was.grantees && p !in drop)
            && Logged(index.ledger, index'.ledger, make(was, |now.grantees|))
  {
    hide FetchAnswered, PublishedAll, RotationEvents, AppendAll, Logged;
    var i := EntryAt(index.issued, scope);
    var was := index.issued[i];
    ReplacedOne(index.issued, i, RotatedEntry(was, drop, drawn));
    AppendsAre(index.ledger, make(was, |Survivors(was, drop)|));
  }

  /** What the three kinds of rotation log: the generations the scope moved from and to, how many survived, and who left
      and why. An empty reason counts as none. */
  lemma RunnersLog(at: int, was: IssuedEntry, n: nat, agent: Pub, reason: Option<string>, item: Item, expired: nat)
    ensures ExpiryLog(at, expired)(was, n) == [ExpiredRotated(at, was.scope, was.v, was.v + 1, expired, n)]
    ensures var why := if reason.Some? && reason.value != "" then reason else None;
            RevokeLog(at, agent, reason)(was, n) ==
            [Revoked(at, was.scope, agent, was.v, why, why.Some?), Rotated(at, was.scope, was.v, was.v + 1, n)]
    ensures var why := if item.reason.Some? && item.reason.value != "" then item.reason else None;
            RelinquishLog(at, item)(was, n) ==
            [Relinquished(at, was.scope, item.agent, was.v, why, item.destroyed_at),
             Rotated(at, was.scope, was.v, was.v + 1, n)]
  {
  }

  /** A finished addition: the identity holds the current generation under the terms that were asked for, and both the
      entry and the log say so. */
  lemma AddDelivers(me: Pub, events: seq<Event>, index: Index, scope: ScopeId, pub: Pub, terms: Terms, at: int, ts: int,
                    events': seq<Event>, index': Index)
    requires AddRun(me, events, index, scope, pub, terms, at, ts, Done, events', index')
    ensures scope in Scopes(index.issued)
    ensures var i := EntryAt(index.issued, scope);
            var entry := index.issued[i];
            && pub !in entry.grantees
            && Handed(events', me, pub, scope, entry.scope_name, entry.v, entry.key, Some(terms))
            && index'.issued == index.issued[i := entry.(grantees := entry.grantees + [pub])]
            && Logged(index.ledger, index'.ledger, [Granted(at, scope, pub, entry.v, Some(terms), entry.scope_name)])
            && index'.children == index.children
  {
    hide PublishedAll, LedgerLog.AppendLedger;
    var entry := index.issued[EntryAt(index.issued, scope)];
    var wrap := GrantEvent(pub, GrantOf(me, entry, Some(terms)));
    var es := [wrap] + [IndexEvent(me, ts, index')];
    PublishesStay(events, es);
    assert wrap in es;
    AppendIs(index.ledger, Granted(at, scope, pub, entry.v, Some(terms), entry.scope_name));
  }

  /** A finished issue: a first generation of the scope under a new key, and the agent holds it under the terms asked
      for. */
  lemma IssueDelivers(me: Pub, events: seq<Event>, index: Index, drawn: nat, scope: ScopeId, name: string, agent: Pub,
                      terms: Terms, data: Payload, at: int, ts: int, events': seq<Event>, index': Index)
    requires IssueRun(me, events, index, drawn, scope, name, agent, terms, data, at, ts, Done, events', index')
    requires OnePerSlot(events)
    ensures FetchScope(events', me, scope, 1, drawn) == Read(1, data)
    ensures Handed(events', me, agent, scope, name, 1, drawn, Some(terms))
    ensures index'.issued == index.issued + [IssuedEntry(scope, name, 1, drawn, [agent])]
    ensures Logged(index.ledger, index'.ledger, [Granted(at, scope, agent, 1, Some(terms), name)])
    ensures index'.children == index.children
  {
    hide PublishedAll, LedgerLog.AppendLedger;
    var entry := IssuedEntry(scope, name, 1, drawn, [agent]);
    var sealed := SetEvent(me, scope, ts, 1, drawn, data);
    var wrap := GrantEvent(agent, GrantOf(me, entry, Some(terms)));
    var es := [sealed, wrap] + [IndexEvent(me, ts + 1, index')];
    PublishesStay(events, es);
    assert wrap in es;
    AppendIs(index.ledger, Granted(at, scope, agent, 1, Some(terms), name));
    SetComesFirst(events, sealed, wrap, IndexEvent(me, ts + 1, index'), DataSlot(me, scope));
    OpensOwnSet(events', me, scope, ts, drawn, data);
  }

  lemma SetComesFirst(events: seq<Event>, sealed: Event, wrap: Event, saved: Event, slot: Slot)
    requires OnePerSlot(events) && sealed.signed && wrap.signed && saved.signed
    requires ReplaceKey(sealed) == Some(slot) && ReplaceKey(wrap) != Some(slot) && ReplaceKey(saved) != Some(slot)
    ensures Current(PublishedAll(events, [sealed, wrap] + [saved]), slot) == Some(sealed)
  {
    hide Current, Published, ReplaceKey;
    OneMorePublish(events, [], sealed);
    OneMorePublish(events, [sealed], wrap);
    OneMorePublish(events, [sealed, wrap], saved);
    PublishedNone(events);
    assert [] + [sealed] == [sealed] && [sealed] + [wrap] == [sealed, wrap];
    var one := Published(events, sealed);
    PublishReplaces(events, sealed, slot);
    PublishReplaces(one, wrap, slot);
    PublishReplaces(Published(one, wrap), saved, slot);
  }

  lemma OpensOwnSet(events: seq<Event>, me: Pub, scope: ScopeId, ts: int, key: Key, data: Payload)
    requires Current(events, DataSlot(me, scope)) == Some(SetEvent(me, scope, ts, 1, key, data))
    ensures FetchScope(events, me, scope, 1, key) == Read(1, data)
  {
  }

  /** The last 500 of a list. */
  ghost function Newest500<T>(all: seq<T>): seq<T> {
    if |all| <= 500 then all else all[|all| - 500..]
  }

  /** The log with these events at its end, the oldest making room. */
  ghost predicate Logged(before: seq<LedgerEvent>, after: seq<LedgerEvent>, events: seq<LedgerEvent>) {
    after == Newest500(before + events)
  }

  lemma AppendIs(log: seq<LedgerEvent>, ev: LedgerEvent)
    ensures Logged(log, AppendLedger(log, ev), [ev])
  {
  }

  lemma {:induction false} AppendsAre(log: seq<LedgerEvent>, events: seq<LedgerEvent>)
    requires |log| <= 500
    ensures Logged(log, AppendAll(log, events), events)
    decreases |events|
  {
    hide Logged, LedgerLog.AppendLedger;
    if events == [] {
      NothingLogged(log);
    } else {
      var n := |events| - 1;
      AppendsAre(log, events[..n]);
      AppendIs(AppendAll(log, events[..n]), events[n]);
      LoggedOn(log, AppendAll(log, events[..n]), AppendAll(log, events), events[..n], events[n]);
      assert events == events[..n] + [events[n]];
    }
  }

  lemma NothingLogged(log: seq<LedgerEvent>)
    requires |log| <= 500
    ensures Logged(log, log, [])
  {
    assert log + [] == log;
  }

  lemma LoggedOn(before: seq<LedgerEvent>, middle: seq<LedgerEvent>, after: seq<LedgerEvent>, events: seq<LedgerEvent>,
                 ev: LedgerEvent)
    requires Logged(before, middle, events) && Logged(middle, after, [ev])
    ensures Logged(before, after, events + [ev])
  {
    hide Newest500;
    assert before + (events + [ev]) == (before + events) + [ev];
    NewestOfNewest(before + events, ev);
  }

  lemma NewestOfNewest<T>(all: seq<T>, x: T)
    ensures Newest500(Newest500(all) + [x]) == Newest500(all + [x])
  {
    if |all| > 500 {
      var k := |all| - 500;
      assert all + [x] == all[..k] + (all[k..] + [x]);
    }
  }
}
