/** A run in which a notice of an old revocation stops a listed agent (mcp/src/app.ts, the `missing` branch of the
    read). */
module StaleNotices {
  import opened Options
  import opened Records
  import opened Entries
  import opened Relays
  import opened Rotation
  import opened Consoles
  import opened Lifecycle

  lemma {:induction false} KeysStayBelow(events: seq<Event>, es: seq<Event>, drawn: nat)
    requires KeysBelow(events, drawn)
    requires forall e | e in es ::
             e.signed && (e.body.SealedSet? ==> e.body.key < drawn) && (e.body.GiftWrap? ==> e.body.grant.key < drawn)
    ensures KeysBelow(PublishedAll(events, es), drawn)
    decreases |es|
  {
    if es != [] {
      KeysStayBelow(events, es[..|es| - 1], drawn);
      PublishKeepsKeys(PublishedAll(events, es[..|es| - 1]), es[|es| - 1], drawn, drawn);
    }
  }

  /** A state with one scope, its entry, and a bound on the keys drawn so far. */
  ghost predicate OneScope(me: Pub, w: World, scope: ScopeId, v: nat, grantees: seq<Pub>) {
    && Inv(me, w) && TornScopes(me, w) == {}
    && |w.index.issued| == 1
    && var e := w.index.issued[0]; e.scope == scope && e.v == v && e.grantees == grantees
  }

  lemma SoleEntry(me: Pub, w: World, scope: ScopeId, v: nat, grantees: seq<Pub>)
    requires OneScope(me, w, scope, v, grantees)
    ensures w.index.issued[0] in w.index.issued && Synced(w.events, me, w.index.issued[0])
    ensures scope in Scopes(w.index.issued) && EntryAt(w.index.issued, scope) == 0
  {
    var e := w.index.issued[0];
    assert e in w.index.issued && scope in Scopes(w.index.issued);
    assert e.scope !in TornScopes(me, w);
  }

  lemma Issued(me: Pub, scope: ScopeId, name: string, p: Pub, terms: Terms, data: Payload, at: int, ts: int)
    returns (w: World, step: Step)
    ensures Next(me, World([], EMPTY_INDEX, 0, map[]), step, w) && step.Issue?
    ensures OneScope(me, w, scope, 1, [p]) && w.agents == map[]
  {
    hide Inv, TornScopes, PublishedAll, KeysBelow;
    var start := World([], EMPTY_INDEX, 0, map[]);
    var entry := IssuedEntry(scope, name, 1, 0, [p]);
    var es := [SetEvent(me, scope, ts, 1, 0, data), GrantEvent(p, GrantOf(me, entry, Some(terms)))];
    var recorded := IssuedIndex(EMPTY_INDEX, entry, p, terms, at);
    w := World(PublishedAll([], es + [IndexEvent(me, ts + 1, recorded)]), recorded, 1, map[]);
    step := Issue(scope, name, p, terms, data, at, ts, Done);
    KeysStayBelow([], es + [IndexEvent(me, ts + 1, recorded)], 1);
    EmptyWorld(me);
    NextKeeps(me, start, step, w);
  }

  lemma Revoked(me: Pub, w: World, scope: ScopeId, p: Pub, reason: string, at: int, ts: int)
    returns (w': World, step: Step)
    requires OneScope(me, w, scope, 1, [p])
    ensures Next(me, w, step, w') && step.Rotate? && step.r == Done
    ensures OneScope(me, w', scope, 2, []) && w'.agents == w.agents
  {
    hide Inv, TornScopes, PublishedAll, FetchScope, KeysBelow, Synced;
    SoleEntry(me, w, scope, 1, [p]);
    var entry, make := w.index.issued[0], RevokeLog(at, p, Some(reason));
    assert FetchScope(w.events, me, scope, entry.v, entry.key).Read? by { ReadsBack(me, w.events, entry); }
    var data := FetchScope(w.events, me, scope, entry.v, entry.key).data;
    var rotated := AfterRotation(w.index, scope, [p], w.drawn, make);
    var es := RotationEvents(me, w.index, entry, [p], w.drawn, data, ts) + [IndexEvent(me, ts + 1, rotated)];
    w' := World(PublishedAll(w.events, es), rotated, w.drawn + 1, w.agents);
    step := Rotate(scope, [p], ts, make, true, Done);
    Rotated(me, w, es, w');
    assert Survivors(entry, [p]) == [];
    NextKeeps(me, w, step, w');
  }

  lemma Rotated(me: Pub, w: World, es: seq<Event>, w': World)
    requires Inv(me, w) && (forall e | e in es :: e.signed) && w'.events == PublishedAll(w.events, es)
             && w'.drawn == w.drawn + 1
    requires forall e | e in es ::
             (e.body.SealedSet? ==> e.body.key <= w.drawn) && (e.body.GiftWrap? ==> e.body.grant.key <= w.drawn)
    ensures KeysBelow(w'.events, w'.drawn)
  {
    KeysStayBelow(w.events, es, w.drawn + 1);
  }

  lemma Notified(me: Pub, w: World, scope: ScopeId, p: Pub) returns (w': World)
    requires OneScope(me, w, scope, 2, [])
    ensures Next(me, w, Notify(p, scope), w')
    ensures OneScope(me, w', scope, 2, []) && w'.agents == w.agents && NoticeEvent(me, p, scope) in w'.events
  {
    hide Inv, TornScopes;
    w' := w.(events := Published(w.events, NoticeEvent(me, p, scope)));
    assert KeysBelow(w.events, w.drawn) by { KeysOf(me, w); }
    PublishKeepsKeys(w.events, NoticeEvent(me, p, scope), w.drawn, w.drawn);
    NextKeeps(me, w, Notify(p, scope), w');
  }

  lemma KeysOf(me: Pub, w: World)
    requires Inv(me, w)
    ensures KeysBelow(w.events, w.drawn)
  {
  }

  lemma GrantedAgain(me: Pub, w: World, scope: ScopeId, p: Pub, terms: Terms, at: int, ts: int)
    returns (w': World, step: Step)
    requires OneScope(me, w, scope, 2, [])
    ensures Next(me, w, step, w') && step.Add?
    ensures OneScope(me, w', scope, 2, [p]) && w'.agents == w.agents
    ensures NoticeEvent(me, p, scope) in w.events ==> NoticeEvent(me, p, scope) in w'.events
  {
    hide Inv, TornScopes, PublishedAll, KeysBelow, Synced, IssueRun, RotationRun, Observed, Cached, Onward, Foreign;
    SoleEntry(me, w, scope, 2, []);
    var entry := w.index.issued[0];
    var added := AddedIndex(w.index, scope, p, terms, at);
    var es := [GrantEvent(p, GrantOf(me, entry, Some(terms)))] + [IndexEvent(me, ts, added)];
    w' := w.(events := PublishedAll(w.events, es), index := added);
    step := Add(scope, p, terms, at, ts, Done);
    assert entry.key < w.drawn && KeysBelow(w.events, w.drawn) by { EntryKey(me, w); }
    KeysStayBelow(w.events, es, w.drawn);
    WrapsStay(w.events, es, NoticeEvent(me, p, scope));
    NextKeeps(me, w, step, w');
  }

  lemma EntryKey(me: Pub, w: World)
    requires Inv(me, w)
    ensures KeysBelow(w.events, w.drawn) && forall i | 0 <= i < |w.index.issued| :: w.index.issued[i].key < w.drawn
  {
    assert forall i | 0 <= i < |w.index.issued| :: w.index.issued[i] in w.index.issued;
  }

  lemma Refreshed(me: Pub, w: World, scope: ScopeId, p: Pub, received: seq<Grant>) returns (w': World)
    requires OneScope(me, w, scope, 2, [p]) && Inbox(me, w.events, p, received)
    ensures Next(me, w, Refresh(p, received), w') && OneScope(me, w', scope, 2, [p])
    ensures w'.events == w.events && AgentOf(w', p) == AgentOf(w, p).(cached := Cached(received))
    ensures scope in Cached(received) && Cached(received)[scope].v == 2
  {
    hide Inv, TornScopes, KeysBelow, FetchScope, Cached, Latest;
    w' := w.(agents := w.agents[p := AgentOf(w, p).(cached := Cached(received))]);
    assert KeysBelow(w.events, w.drawn) by { KeysOf(me, w); }
    NextKeeps(me, w, Refresh(p, received), w');
    SoleEntry(me, w, scope, 2, [p]);
    EntryIsTruth(me, w, w.index.issued[0], p, received);
    LatestIs(received, scope);
    var g := Latest(received, scope).value;
    assert GrantEvent(p, g) in w.events;
    LatestIsCurrent(me, w, scope, p, g);
    CachedIsLatest(received, scope);
  }

  lemma CachedIsLatest(received: seq<Grant>, scope: ScopeId)
    requires Latest(received, scope).Some?
    ensures scope in Cached(received) && Cached(received)[scope] == Latest(received, scope).value
  {
    LatestIs(received, scope);
  }

  lemma LatestIsCurrent(me: Pub, w: World, scope: ScopeId, p: Pub, g: Grant)
    requires Inv(me, w) && GrantEvent(p, g) in w.events && g.publisher == me && g.scope == scope
    requires |w.index.issued| == 1 && w.index.issued[0].scope == scope && Synced(w.events, me, w.index.issued[0])
    requires FetchScope(w.events, me, scope, g.v, g.key).Read?
    ensures g.v == w.index.issued[0].v
  {
    hide Current, KeysBelow, FetchScope, HasData, DataAt;
    StaleMeansRotated(me, w.events, g);
  }

  /** Issue to `p`; revoke `p`, with a reason; grant `p` the scope again; let it refresh, and let one query for the data
      set go unanswered. The old notice is found, and from then on `p` does not read, though it is listed and
      refreshes. */
  lemma OldNoticeStops(me: Pub, scope: ScopeId, name: string, p: Pub, terms: Terms, data: Payload, reason: string,
                       at: int, ts: int) returns (ws: seq<World>, steps: seq<Step>)
    ensures Run(me, ws, steps) && |steps| == 7 && steps[5] == Dereference(p, scope, [], true)
    ensures steps[6].Refresh? && steps[6].agent == p && Inbox(me, ws[6].events, p, steps[6].received)
    ensures |ws[7].index.issued| == 1 && p in ws[7].index.issued[0].grantees
    ensures Misled(me, ws[5], steps[5], p, scope, 2) && !AgentReads(me, ws[7], p, scope)
  {
    hide Inv, Next, TornScopes, Cached, AgentReads, Misled, OneScope, HasData, DataAt;
    var w1, s0 := Issued(me, scope, name, p, terms, data, at, ts);
    var w2, s1 := Revoked(me, w1, scope, p, reason, at, ts + 2);
    var w3 := Notified(me, w2, scope, p);
    var w4, s3 := GrantedAgain(me, w3, scope, p, terms, at, ts + 4);
    var received := GrantsTo(me, w4.events, p);
    var w5 := Refreshed(me, w4, scope, p, received);
    NoData(me, scope);
    var w6 := MisledRead(me, w5, scope, p, [], true);
    var w7 := Refreshed(me, w6, scope, p, received);
    Holds(me, w7, scope, 2, p);
    ws := [World([], EMPTY_INDEX, 0, map[]), w1, w2, w3, w4, w5, w6, w7];
    steps := [s0, s1, Notify(p, scope), s3, Refresh(p, received), Dereference(p, scope, [], true),
              Refresh(p, received)];
    assert steps[5].seen == ws[0].events && forall i | 0 <= i < 7 && i != 5 :: !steps[i].Dereference?;
    assert Run(me, ws, steps);
    assert forall i | 0 <= i < 6 :: NotBroken(steps[i]);
    StopsAfter(me, ws, steps, 6, p, scope, received);
  }

  predicate NotBroken(step: Step) {
    step.Rotate? ==> step.r == Done
  }

  /** With the last read misled, a full refresh does not bring the agent back. */
  lemma StopsAfter(me: Pub, ws: seq<World>, steps: seq<Step>, n: nat, p: Pub, scope: ScopeId, received: seq<Grant>)
    requires Run(me, ws, steps) && |steps| == n + 1 && n > 0 && forall i | 0 <= i < n :: NotBroken(steps[i])
    requires steps[n] == Refresh(p, received) && Inbox(me, ws[n].events, p, received)
    requires OneScope(me, ws[n], scope, 2, [p]) && Misled(me, ws[n - 1], steps[n - 1], p, scope, 2)
    ensures !AgentReads(me, ws[n + 1], p, scope)
  {
    hide Inv, Next, TornScopes, Misled, AgentReads;
    SoleEntry(me, ws[n], scope, 2, [p]);
    assert forall i | 0 <= i < n :: !BrokeOff(ws[i], steps[i]);
    SurvivorsHeal(me, ws, steps, n, ws[n].index.issued[0], p, received);
  }

  lemma Holds(me: Pub, w: World, scope: ScopeId, v: nat, p: Pub)
    requires OneScope(me, w, scope, v, [p])
    ensures |w.index.issued| == 1 && p in w.index.issued[0].grantees
  {
  }

  /** The same without any notice: the one query is answered by a relay that missed the rotation. */
  lemma LaggingRelayStops(me: Pub, scope: ScopeId, name: string, p: Pub, terms: Terms, data: Payload, reason: string,
                          at: int, ts: int) returns (ws: seq<World>, steps: seq<Step>)
    ensures Run(me, ws, steps) && |steps| == 6 && steps[4] == Dereference(p, scope, ws[1].events, false)
    ensures forall i | 0 <= i < 6 :: !steps[i].Notify?
    ensures steps[5].Refresh? && steps[5].agent == p && Inbox(me, ws[5].events, p, steps[5].received)
    ensures |ws[6].index.issued| == 1 && p in ws[6].index.issued[0].grantees
    ensures Misled(me, ws[4], steps[4], p, scope, 2) && !AgentReads(me, ws[6], p, scope)
  {
    hide Inv, Next, TornScopes, Cached, AgentReads, Misled, OneScope, HasData, DataAt;
    var w1, s0 := Issued(me, scope, name, p, terms, data, at, ts);
    var w2, s1 := Revoked(me, w1, scope, p, reason, at, ts + 2);
    var w3, s2 := GrantedAgain(me, w2, scope, p, terms, at, ts + 4);
    var received := GrantsTo(me, w3.events, p);
    var w4 := Refreshed(me, w3, scope, p, received);
    SoleData(me, w1, scope, 1, [p]);
    var w5 := MisledRead(me, w4, scope, p, w1.events, false);
    var w6 := Refreshed(me, w5, scope, p, received);
    Holds(me, w6, scope, 2, p);
    ws := [World([], EMPTY_INDEX, 0, map[]), w1, w2, w3, w4, w5, w6];
    steps := [s0, s1, s2, Refresh(p, received), Dereference(p, scope, w1.events, false), Refresh(p, received)];
    assert steps[4].seen == ws[1].events && forall i | 0 <= i < 6 && i != 4 :: !steps[i].Dereference?;
    assert Run(me, ws, steps);
    assert forall i | 0 <= i < 5 :: NotBroken(steps[i]);
    StopsAfter(me, ws, steps, 5, p, scope, received);
  }

  lemma NoData(me: Pub, scope: ScopeId)
    ensures !HasData([], me, scope)
  {
    CurrentIsStored([], DataSlot(me, scope));
  }

  lemma SoleData(me: Pub, w: World, scope: ScopeId, v: nat, grantees: seq<Pub>)
    requires OneScope(me, w, scope, v, grantees)
    ensures HasData(w.events, me, scope) && DataAt(w.events, me, scope).v == v
  {
    SoleEntry(me, w, scope, v, grantees);
  }

  lemma MisledRead(me: Pub, w: World, scope: ScopeId, p: Pub, seen: seq<Event>, heard: bool) returns (w': World)
    requires OneScope(me, w, scope, 2, [p])
    requires if HasData(seen, me, scope) then DataAt(seen, me, scope).v < 2
             else heard && NoticeEvent(me, p, scope) in w.events
    requires scope in AgentOf(w, p).cached && AgentOf(w, p).cached[scope].v == 2 && AgentOf(w, p).revoked == map[]
    ensures Next(me, w, Dereference(p, scope, seen, heard), w') && OneScope(me, w', scope, 2, [p])
            && w'.events == w.events
    ensures Misled(me, w, Dereference(p, scope, seen, heard), p, scope, 2)
  {
    hide Inv, TornScopes, KeysBelow, Observed, HasData, DataAt;
    w' := w.(agents := w.agents[p := Observed(me, w.events, p, AgentOf(w, p), scope, seen, heard)]);
    assert KeysBelow(w.events, w.drawn) by { KeysOf(me, w); }
    NextKeeps(me, w, Dereference(p, scope, seen, heard), w');
  }
}
