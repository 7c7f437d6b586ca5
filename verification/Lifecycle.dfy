/** Every run of one delegator, its relay and its agents: who can read what, in every reachable state. */
module Lifecycle {
  import opened Options
  import opened Sequences
  import opened Records
  import opened Entries
  import opened Relays
  import opened LedgerLog
  import opened Rotation
  import opened Consoles

  /** What the runtime of one agent remembers about this delegator's scopes. */
  datatype Agent = Agent(cached: map<ScopeId, Grant>, revoked: map<ScopeId, nat>)

  const BLANK := Agent(map[], map[])

  datatype World = World(events: seq<Event>, index: Index, drawn: nat, agents: map<Pub, Agent>)

  function AgentOf(w: World, p: Pub): Agent {
    if p in w.agents then w.agents[p] else BLANK
  }

  datatype Step =
    | Issue(scope: ScopeId, name: string, agent: Pub, terms: Terms, data: Payload, at: int, ts: int, r: Outcome)
    | Add(scope: ScopeId, pub: Pub, terms: Terms, at: int, ts: int, r: Outcome)
    | Rotate(scope: ScopeId, drop: seq<Pub>, ts: int, make: EventMaker, answered: bool, r: Outcome)
    | Notify(agent: Pub, scope: ScopeId)
    | Refresh(agent: Pub, received: seq<Grant>)
    | Dereference(agent: Pub, scope: ScopeId, seen: seq<Event>, heard: bool)
    | Elsewhere(event: Event)

  /** `received` lists only grants of `me` that were delivered to `p`; a query may miss some. */
  ghost predicate Delivered(me: Pub, events: seq<Event>, p: Pub, received: seq<Grant>) {
    forall g | g in received :: GrantEvent(p, g) in events && g.publisher == me
  }

  /** `received` lists, in any order and with any repetition, all grants of `me` that were delivered to `p`. */
  ghost predicate Inbox(me: Pub, events: seq<Event>, p: Pub, received: seq<Grant>) {
    forall g :: g in received <==> GrantEvent(p, g) in events && g.publisher == me
  }

  /** `latestGrants`: of the grants of one scope the first with the highest generation. */
  function Latest(received: seq<Grant>, scope: ScopeId): Option<Grant>
    decreases |received|
  {
    if received == [] then None
    else
      var best, g := Latest(received[..|received| - 1], scope), received[|received| - 1];
      if g.scope == scope && (best.None? || g.v > best.value.v) then Some(g) else best
  }

  function Cached(received: seq<Grant>): map<ScopeId, Grant> {
    map s | s in (set g | g in received :: g.scope) && Latest(received, s).Some? :: Latest(received, s).value
  }

  /** The grant through which an agent reads a scope, unless a record says that it is dead. */
  function Usable(a: Agent, scope: ScopeId): Option<Grant> {
    if scope !in a.cached || (scope in a.revoked && a.cached[scope].v <= a.revoked[scope]) then None
        else Some(a.cached[scope])
  }

  /** A read by agent `p` through its newest cached grant. A superseded key is recorded as revoked at its generation; so
      is a grant whose data set is missing, when a notice of the scope is found. `seen` is what the relays that answer
      the query for the data set have stored between them, and `heard` whether the query for the notice is answered. */
  function Observed(me: Pub, events: seq<Event>, p: Pub, a: Agent, scope: ScopeId, seen: seq<Event>,
                    heard: bool): Agent {
    match Usable(a, scope)
    case None => a
    case Some(g) =>
      var fetched := FetchScope(seen, me, scope, g.v, g.key);
      if fetched.Stale? || (fetched.Missing? && heard && NoticeEvent(me, p, scope) in events)
      then a.(revoked := MarkRevoked(a.revoked, scope, g.v))
      else a
  }

  /** `markRevoked`: a record is never lowered. */
  function MarkRevoked(revoked: map<ScopeId, nat>, scope: ScopeId, v: nat): map<ScopeId, nat> {
    if scope in revoked && revoked[scope] >= v then revoked else revoked[scope := v]
  }

  ghost predicate Next(me: Pub, w: World, step: Step, w': World) {
    && KeysBelow(w'.events, w'.drawn)
    && match step
       case Issue(scope, name, agent, terms, data, at, ts, r) =>
         && Current(w.events, DataSlot(me, scope)).None?
         && IssueRun(me, w.events, w.index, w.drawn, scope, name, agent, terms, data, at, ts, r, w'.events, w'.index)
         && w'.drawn == w.drawn + 1 && w'.agents == w.agents
       case Add(scope, pub, terms, at, ts, r) =>
         && AddRun(me, w.events, w.index, scope, pub, terms, at, ts, r, w'.events, w'.index)
         && w'.drawn == w.drawn && w'.agents == w.agents
       case Rotate(scope, drop, ts, make, answered, r) =>
         && RotationRun(me, w.events, w.index, w.drawn, scope, drop, ts, make, answered, r, w'.events, w'.index)
         && w'.drawn == (if r.Refused? then w.drawn else w.drawn + 1) && w'.agents == w.agents
       case Notify(p, scope) => w' == w.(events := Published(w.events, NoticeEvent(me, p, scope)))
       case Refresh(p, received) =>
         && Delivered(me, w.events, p, received)
         && w' == w.(agents := w.agents[p := AgentOf(w, p).(cached := Cached(received))])
       case Dereference(p, scope, seen, heard) =>
         w' == w.(agents := w.agents[p := Observed(me, w.events, p, AgentOf(w, p), scope, seen, heard)])
       case Elsewhere(e) =>
         && Foreign(me, e) && w'.events == Published(w.events, e)
         && w'.index == w.index && w.drawn <= w'.drawn && w'.agents == w.agents
  }

  /** A run. The relays that answer the query for a data set may have missed the latest publishes: they stand where the
      network stood at some earlier moment, the empty beginning included, which is also what no answer at all amounts
      to. */
  ghost predicate Run(me: Pub, ws: seq<World>, steps: seq<Step>) {
    && |ws| == |steps| + 1
    && ws[0] == World([], EMPTY_INDEX, 0, map[])
    && (forall i | 0 <= i < |steps| :: Next(me, ws[i], steps[i], ws[i + 1]))
    && forall i | 0 <= i < |steps| && steps[i].Dereference? :: exists j :: 0 <= j <= i && steps[i].seen == ws[j].events
  }

  // ---------------------------------------------------------------- the invariant

  ghost predicate HasGrant(events: seq<Event>, me: Pub, p: Pub, scope: ScopeId, v: nat) {
    exists g :: GrantEvent(p, g) in events && g.publisher == me && g.scope == scope && g.v == v
  }

  /** A grant opens at most the data set it was made for, and only while that generation is current. */
  ghost predicate Fits(events: seq<Event>, me: Pub, g: Grant) {
    && HasData(events, me, g.scope) && g.v <= DataAt(events, me, g.scope).v
    && (g.v == DataAt(events, me, g.scope).v ==> g.key == DataAt(events, me, g.scope).key)
    && forall s | HasData(events, me, s) && g.key == DataAt(events, me, s).key ::
       s == g.scope && g.v == DataAt(events, me, s).v
  }

  ghost predicate Wired(me: Pub, events: seq<Event>) {
    && OnePerSlot(events)
    && (forall s, s' | HasData(events, me, s) && HasData(events, me, s') && s != s' ::
          DataAt(events, me, s).key != DataAt(events, me, s').key)
    && (forall to, g | GrantEvent(to, g) in events && g.publisher == me :: Fits(events, me, g))
  }

  /** Nobody is listed twice. */
  ghost predicate Once(ps: seq<Pub>) {
    forall i, j | 0 <= i < j < |ps| :: ps[i] != ps[j]
  }

  /** The entry tells the truth: generation and key are current, and exactly its grantees were given them. */
  ghost predicate Synced(events: seq<Event>, me: Pub, e: IssuedEntry) {
    && HasData(events, me, e.scope)
    && DataAt(events, me, e.scope).v == e.v && DataAt(events, me, e.scope).key == e.key
    && Once(e.grantees)
    && forall p :: p in e.grantees <==> HasGrant(events, me, p, e.scope, e.v)
  }

  /** A rotation of the scope was broken off: the data set is one generation ahead of the entry, for former grantees
      only, and not for all of them. */
  ghost predicate Torn(events: seq<Event>, me: Pub, e: IssuedEntry) {
    && HasData(events, me, e.scope)
    && DataAt(events, me, e.scope).v == e.v + 1
    && Once(e.grantees)
    && (forall p | HasGrant(events, me, p, e.scope, e.v + 1) :: p in e.grantees)
    && (exists p :: p in e.grantees && !HasGrant(events, me, p, e.scope, e.v + 1))
    && forall s | HasData(events, me, s) :: DataAt(events, me, s).key != e.key
  }

  ghost predicate Listed(me: Pub, w: World) {
    && UniqueScopes(w.index.issued)
    && forall e | e in w.index.issued :: e.key < w.drawn && (Synced(w.events, me, e) || Torn(w.events, me, e))
  }

  ghost predicate Remembered(me: Pub, w: World) {
    forall p | p in w.agents ::
      && (forall s | s in w.agents[p].cached ::
            w.agents[p].cached[s].scope == s && w.agents[p].cached[s].publisher == me
                && GrantEvent(p, w.agents[p].cached[s]) in w.events)
      && (forall s | s in w.agents[p].revoked ::
         HasData(w.events, me, s) && w.agents[p].revoked[s] <= DataAt(w.events, me, s).v)
  }

  ghost predicate Inv(me: Pub, w: World) {
    Wired(me, w.events) && KeysBelow(w.events, w.drawn) && Listed(me, w) && Remembered(me, w)
  }

  // ---------------------------------------------------------------- the wire, several publishes at a time

  /** The data set at `scope` after `es`, given what was there before. */
  function LastSet(me: Pub, es: seq<Event>, scope: ScopeId, before: Option<Event>): Option<Event>
    decreases |es|
  {
    if es == [] then before
    else if ReplaceKey(es[|es| - 1]) == Some(DataSlot(me, scope)) then Some(es[|es| - 1])
    else LastSet(me, es[..|es| - 1], scope, before)
  }

  ghost predicate Delta(me: Pub, before: seq<Event>, es: seq<Event>, after: seq<Event>) {
    && OnePerSlot(after)
    && (forall s :: Current(after, DataSlot(me, s)) == LastSet(me, es, s, Current(before, DataSlot(me, s))))
    && (forall to, g :: GrantEvent(to, g) in after <==> GrantEvent(to, g) in before || GrantEvent(to, g) in es)
  }

  lemma {:induction false} PublishedDelta(me: Pub, before: seq<Event>, es: seq<Event>)
    requires OnePerSlot(before) && forall e | e in es :: e.signed
    ensures Delta(me, before, es, PublishedAll(before, es))
    decreases |es|
  {
    hide Current, Published;
    if es != [] {
      var fewer, e := es[..|es| - 1], es[|es| - 1];
      PublishedDelta(me, before, fewer);
      forall s
        ensures OnePerSlot(PublishedAll(before, es))
        ensures Current(PublishedAll(before, es), DataSlot(me, s))
                == LastSet(me, es, s, Current(before, DataSlot(me, s)))
      {
        PublishReplaces(PublishedAll(before, fewer), e, DataSlot(me, s));
      }
      assert forall x :: x in es <==> x in fewer || x == e;
      GrantsAdd(PublishedAll(before, fewer), e);
      PublishKeepsSlots(PublishedAll(before, fewer), e);
      assert PublishedAll(before, es) == Published(PublishedAll(before, fewer), e);
      assert forall to, g ::
             GrantEvent(to, g) in PublishedAll(before, es) <==> GrantEvent(to, g) in before || GrantEvent(to, g) in es;
    } else {
      assert PublishedAll(before, es) == before;
    }
  }

  lemma GrantsAdd(events: seq<Event>, e: Event)
    requires e.signed
    ensures forall to, g ::
            GrantEvent(to, g) in Published(events, e) <==> GrantEvent(to, g) in events || GrantEvent(to, g) == e
  {
  }

  /** Only the first publish replaces one of the delegator's data sets. */
  ghost predicate SetThenRest(me: Pub, es: seq<Event>, scope: ScopeId) {
    && (es != [] ==> ReplaceKey(es[0]) == Some(DataSlot(me, scope)))
    && forall i, s | 0 < i < |es| :: ReplaceKey(es[i]) != Some(DataSlot(me, s))
  }

  lemma {:induction false} OneSet(me: Pub, es: seq<Event>, scope: ScopeId, s: ScopeId, before: Option<Event>)
    requires SetThenRest(me, es, scope)
    ensures LastSet(me, es, s, before) == if es != [] && s == scope then Some(es[0]) else before
    decreases |es|
  {
    if |es| > 1 {
      OneSet(me, es[..|es| - 1], scope, s, before);
    }
  }

  lemma {:induction false} NoSet(me: Pub, es: seq<Event>, s: ScopeId, before: Option<Event>)
    requires forall e | e in es :: ReplaceKey(e) != Some(DataSlot(me, s))
    ensures LastSet(me, es, s, before) == before
    decreases |es|
  {
    if es != [] {
      NoSet(me, es[..|es| - 1], s, before);
    }
  }

  // ---------------------------------------------------------------- what a new generation does

  /** A data set of a fresh key at `scope`, and grants of that very generation. */
  ghost predicate NewGeneration(me: Pub, es: seq<Event>, scope: ScopeId, v: nat, key: Key) {
    && es != [] && SetThenRest(me, es, scope)
    && es[0].body.SealedSet? && es[0].body.v == v && es[0].body.key == key
    && forall to, g | GrantEvent(to, g) in es :: g.publisher == me && g.scope == scope && g.v == v && g.key == key
  }

  /** `before` and `after` agree on every data set but the one at `scope`, which moved to generation `v` under `key`. */
  ghost predicate MovedTo(me: Pub, before: seq<Event>, after: seq<Event>, scope: ScopeId, v: nat, key: Key) {
    && HasData(after, me, scope) && DataAt(after, me, scope).v == v && DataAt(after, me, scope).key == key
    && forall s | s != scope :: Current(after, DataSlot(me, s)) == Current(before, DataSlot(me, s))
  }

  lemma GenerationMoves(me: Pub, before: seq<Event>, es: seq<Event>, after: seq<Event>, scope: ScopeId, v: nat,
                        key: Key)
    requires Delta(me, before, es, after) && NewGeneration(me, es, scope, v, key)
    ensures MovedTo(me, before, after, scope, v, key)
  {
    hide Current;
    forall s
      ensures Current(after, DataSlot(me, s)) == if s == scope then Some(es[0]) else Current(before, DataSlot(me, s))
    {
      OneSet(me, es, scope, s, Current(before, DataSlot(me, s)));
      assert Current(after, DataSlot(me, s)) == LastSet(me, es, s, Current(before, DataSlot(me, s)));
    }
  }

  lemma KeysAreOld(me: Pub, events: seq<Event>, drawn: nat)
    requires OnePerSlot(events) && KeysBelow(events, drawn)
    ensures forall s | HasData(events, me, s) :: DataAt(events, me, s).key < drawn
    ensures forall to, g | GrantEvent(to, g) in events :: g.key < drawn
  {
  }

  lemma OtherData(me: Pub, before: seq<Event>, after: seq<Event>, scope: ScopeId, v: nat, key: Key)
    requires MovedTo(me, before, after, scope, v, key)
    ensures forall s | s != scope :: HasData(after, me, s) <==> HasData(before, me, s)
    ensures forall s | s != scope && HasData(before, me, s) :: DataAt(after, me, s) == DataAt(before, me, s)
  {
  }

  lemma WiredAfterMove(me: Pub, before: seq<Event>, es: seq<Event>, after: seq<Event>, scope: ScopeId, v: nat, key: Key)
    requires Wired(me, before) && KeysBelow(before, key)
    requires Delta(me, before, es, after) && NewGeneration(me, es, scope, v, key)
    requires HasData(before, me, scope) ==> DataAt(before, me, scope).v < v
    ensures Wired(me, after) && MovedTo(me, before, after, scope, v, key)
  {
    hide Current, KeysBelow, NewGeneration, LastSet, HasData, DataAt;
    GenerationMoves(me, before, es, after, scope, v, key);
    OtherData(me, before, after, scope, v, key);
    KeysAreOld(me, before, key);
    forall to, g | GrantEvent(to, g) in after && g.publisher == me
      ensures Fits(after, me, g)
    {
      if GrantEvent(to, g) in before {
        assert Fits(before, me, g);
      } else {
        GivenGrants(me, es, scope, v, key, to, g);
        assert Fits(after, me, g);
      }
    }
    assert forall s, s' | HasData(after, me, s) && HasData(after, me, s') && s != s' ::
        DataAt(after, me, s).key != DataAt(after, me, s').key;
  }

  lemma GivenGrants(me: Pub, es: seq<Event>, scope: ScopeId, v: nat, key: Key, to: Pub, g: Grant)
    requires NewGeneration(me, es, scope, v, key) && GrantEvent(to, g) in es
    ensures g.publisher == me && g.scope == scope && g.v == v && g.key == key
  {
  }

  /** Entries of other scopes stay what they were. */
  lemma OtherEntriesKeep(me: Pub, before: seq<Event>, es: seq<Event>, after: seq<Event>, scope: ScopeId, v: nat,
                         key: Key, e: IssuedEntry)
    requires Delta(me, before, es, after) && NewGeneration(me, es, scope, v, key)
             && MovedTo(me, before, after, scope, v, key)
    requires e.scope != scope && e.key != key
    ensures Synced(before, me, e) ==> Synced(after, me, e)
    ensures Torn(before, me, e) ==> Torn(after, me, e)
  {
    hide Current, LastSet, HasData, DataAt;
    OtherData(me, before, after, scope, v, key);
    forall p, v'
      ensures HasGrant(after, me, p, e.scope, v') <==> HasGrant(before, me, p, e.scope, v')
    {
      if g :| GrantEvent(p, g) in after && g.publisher == me && g.scope == e.scope && g.v == v' {
        assert GrantEvent(p, g) in before;
      }
      if g :| GrantEvent(p, g) in before && g.publisher == me && g.scope == e.scope && g.v == v' {
        assert GrantEvent(p, g) in after;
      }
    }
  }

  ghost predicate Gives(es: seq<Event>, p: Pub) {
    exists g :: GrantEvent(p, g) in es
  }

  /** Who holds a grant of the new generation: those it was just given to, since all older grants are below it. */
  lemma HoldersOfNew(me: Pub, before: seq<Event>, es: seq<Event>, after: seq<Event>, scope: ScopeId, v: nat, key: Key,
                     p: Pub)
    requires Wired(me, before) && Delta(me, before, es, after) && NewGeneration(me, es, scope, v, key)
    requires HasData(before, me, scope) ==> DataAt(before, me, scope).v < v
    ensures HasGrant(after, me, p, scope, v) <==> Gives(es, p)
  {
  }

  /** The entry of a generation that all its grantees, and nobody else, were handed tells the truth. */
  lemma HandedIsSynced(me: Pub, before: seq<Event>, es: seq<Event>, after: seq<Event>, e: IssuedEntry)
    requires Wired(me, before) && Delta(me, before, es, after) && NewGeneration(me, es, e.scope, e.v, e.key)
    requires HasData(before, me, e.scope) ==> DataAt(before, me, e.scope).v < e.v
    requires Once(e.grantees) && forall p :: Gives(es, p) <==> p in e.grantees
    ensures Synced(after, me, e)
  {
    hide Current, LastSet;
    GenerationMoves(me, before, es, after, e.scope, e.v, e.key);
    forall p
      ensures p in e.grantees <==> HasGrant(after, me, p, e.scope, e.v)
    {
      HoldersOfNew(me, before, es, after, e.scope, e.v, e.key, p);
    }
  }

  /** The rotation broke off: the entry is one generation behind, and only former grantees were given the new one. */
  lemma BrokenIsTorn(me: Pub, before: seq<Event>, es: seq<Event>, after: seq<Event>, e: IssuedEntry, key: Key)
    requires Wired(me, before) && Delta(me, before, es, after) && NewGeneration(me, es, e.scope, e.v + 1, key)
    requires Synced(before, me, e) && e.key != key
    requires (forall p | Gives(es, p) :: p in e.grantees) && exists p :: p in e.grantees && !Gives(es, p)
    ensures Torn(after, me, e)
  {
    hide Current, LastSet;
    GenerationMoves(me, before, es, after, e.scope, e.v + 1, key);
    OtherData(me, before, after, e.scope, e.v + 1, key);
    forall p
      ensures HasGrant(after, me, p, e.scope, e.v + 1) <==> Gives(es, p)
    {
      HoldersOfNew(me, before, es, after, e.scope, e.v + 1, key, p);
    }
  }

  // ---------------------------------------------------------------- the publishes of each operation

  lemma WithIndex(me: Pub, es: seq<Event>, scope: ScopeId, v: nat, key: Key, ts: int, index: Index)
    requires NewGeneration(me, es, scope, v, key)
    ensures NewGeneration(me, es + [IndexEvent(me, ts, index)], scope, v, key)
    ensures forall p :: Gives(es + [IndexEvent(me, ts, index)], p) <==> Gives(es, p)
  {
  }

  lemma RotationGives(me: Pub, index: Index, entry: IssuedEntry, drop: seq<Pub>, key: Key, data: Payload, ts: int,
                      n: nat)
    requires 0 < n <= 1 + |Survivors(entry, drop)|
    ensures var es := RotationEvents(me, index, entry, drop, key, data, ts)[..n];
            && NewGeneration(me, es, entry.scope, entry.v + 1, key)
            && (forall p :: Gives(es, p) <==> p in Survivors(entry, drop)[..n - 1])
  {
    hide RotationEvents, Survivors, TermsOf;
    var survivors, all := Survivors(entry, drop), RotationEvents(me, index, entry, drop, key, data, ts);
    var es := all[..n];
    var entry' := RotatedEntry(entry, drop, key);
    assert forall i | 0 <= i < |survivors| ::
           all[i + 1] == GrantEvent(survivors[i], GrantOf(me, entry', TermsOf(index, Pair(entry.scope, survivors[i]))));
    forall i | 0 < i < n
      ensures es[i].body.GiftWrap? && es[i].body.to == survivors[i - 1]
    {
      var p := survivors[i - 1];
      assert es[i] == all[(i - 1) + 1] == GrantEvent(p, GrantOf(me, entry', TermsOf(index, Pair(entry.scope, p))));
    }
    forall p
      ensures Gives(es, p) <==> p in survivors[..n - 1]
    {
      if p in survivors[..n - 1] {
        var i :| 0 <= i < n - 1 && survivors[i] == p;
        assert es[i + 1] == all[i + 1] && es[i + 1] in es;
      }
    }
  }

  lemma IssueGives(me: Pub, entry: IssuedEntry, agent: Pub, terms: Terms, data: Payload, ts: int)
    ensures var sealed := SetEvent(me, entry.scope, ts, entry.v, entry.key, data);
            var wrap := GrantEvent(agent, GrantOf(me, entry, Some(terms)));
            && NewGeneration(me, [sealed], entry.scope, entry.v, entry.key) && (forall p :: !Gives([sealed], p))
            && NewGeneration(me, [sealed, wrap], entry.scope, entry.v, entry.key)
               && (forall p :: Gives([sealed, wrap], p) <==> p == agent)
  {
  }

  // ---------------------------------------------------------------- each step keeps the invariant

  /** Grants stay delivered and generations never go back. */
  ghost predicate Onward(me: Pub, before: seq<Event>, after: seq<Event>) {
    && (forall to, g | GrantEvent(to, g) in before && g.publisher == me :: GrantEvent(to, g) in after)
    && forall s | HasData(before, me, s) :: HasData(after, me, s) && DataAt(before, me, s).v <= DataAt(after, me, s).v
  }

  lemma RememberedKeeps(me: Pub, w: World, w': World)
    requires Remembered(me, w) && Onward(me, w.events, w'.events) && w'.agents == w.agents
    ensures Remembered(me, w')
  {
  }

  /** No data set of the delegator is touched, and whatever is handed out fits what is there. */
  ghost predicate Quiet(me: Pub, before: seq<Event>, es: seq<Event>) {
    && (forall e, s | e in es :: ReplaceKey(e) != Some(DataSlot(me, s)))
    && forall to, g | GrantEvent(to, g) in es && g.publisher == me :: Fits(before, me, g)
  }

  lemma QuietKeeps(me: Pub, before: seq<Event>, es: seq<Event>, after: seq<Event>)
    requires Wired(me, before) && Delta(me, before, es, after) && Quiet(me, before, es)
    ensures Wired(me, after) && Onward(me, before, after)
    ensures forall s :: Current(after, DataSlot(me, s)) == Current(before, DataSlot(me, s))
  {
    hide Current, LastSet;
    forall s
      ensures Current(after, DataSlot(me, s)) == Current(before, DataSlot(me, s))
    {
      NoSet(me, es, s, Current(before, DataSlot(me, s)));
      assert Current(after, DataSlot(me, s)) == LastSet(me, es, s, Current(before, DataSlot(me, s)));
    }
    SameDataFits(me, before, after);
  }

  lemma SameDataFits(me: Pub, before: seq<Event>, after: seq<Event>)
    requires forall s :: Current(after, DataSlot(me, s)) == Current(before, DataSlot(me, s))
    ensures forall s :: HasData(after, me, s) == HasData(before, me, s)
    ensures forall s | HasData(before, me, s) :: DataAt(after, me, s) == DataAt(before, me, s)
    ensures forall g :: Fits(after, me, g) == Fits(before, me, g)
  {
  }

  lemma MoveIsOnward(me: Pub, before: seq<Event>, es: seq<Event>, after: seq<Event>, scope: ScopeId, v: nat, key: Key)
    requires Delta(me, before, es, after) && MovedTo(me, before, after, scope, v, key)
    requires HasData(before, me, scope) ==> DataAt(before, me, scope).v < v
    ensures Onward(me, before, after)
  {
  }

  /** The scopes whose rotation was broken off. */
  ghost function TornScopes(me: Pub, w: World): set<ScopeId> {
    set e | e in w.index.issued && Torn(w.events, me, e) :: e.scope
  }

  /** What one step must establish: the invariant again, which scopes it tore, and that nothing went back. */
  ghost predicate Kept(me: Pub, w: World, w': World, tore: set<ScopeId>) {
    Inv(me, w') && TornScopes(me, w') == TornScopes(me, w) + tore && Onward(me, w.events, w'.events)
  }

  /** What a scope's entry says, before and after a step. */
  ghost predicate SameStanding(me: Pub, before: seq<Event>, e: IssuedEntry, after: seq<Event>, e': IssuedEntry) {
    && (Synced(before, me, e) ==> Synced(after, me, e'))
    && (Torn(before, me, e) ==> Torn(after, me, e'))
  }

  lemma NotBoth(me: Pub, events: seq<Event>, e: IssuedEntry)
    ensures !(Synced(events, me, e) && Torn(events, me, e))
  {
  }

  /** When every entry keeps its standing, so does the index. */
  lemma SameStandingKeeps(me: Pub, w: World, w': World)
    requires Inv(me, w) && Wired(me, w'.events) && KeysBelow(w'.events, w'.drawn) && Remembered(me, w')
             && Onward(me, w.events, w'.events)
    requires |w'.index.issued| == |w.index.issued| && w.drawn <= w'.drawn
    requires forall i | 0 <= i < |w.index.issued| ::
             w'.index.issued[i].scope == w.index.issued[i].scope && w'.index.issued[i].key == w.index.issued[i].key
    requires forall i | 0 <= i < |w.index.issued| ::
             SameStanding(me, w.events, w.index.issued[i], w'.events, w'.index.issued[i])
    ensures Kept(me, w, w', {})
  {
  }

  lemma SameGrantsSameHolders(me: Pub, before: seq<Event>, after: seq<Event>, scope: ScopeId, v: nat)
    requires forall to, g: Grant | g.publisher == me && g.scope == scope && g.v == v ::
               GrantEvent(to, g) in before <==> GrantEvent(to, g) in after
    ensures forall p :: HasGrant(before, me, p, scope, v) <==> HasGrant(after, me, p, scope, v)
  {
  }

  /** A publish by somebody else, or a notice. */
  lemma ElsewhereKeeps(me: Pub, w: World, event: Event, w': World)
    requires Inv(me, w) && event.signed && (ReplaceKey(event).Some? ==> event.pubkey != me)
    requires event.body.GiftWrap? ==> event.body.grant.publisher != me
    requires w'.events == Published(w.events, event) && KeysBelow(w'.events, w'.drawn)
    requires w'.index == w.index && w'.agents == w.agents && w.drawn <= w'.drawn
    ensures Kept(me, w, w', {})
  {
    hide Current, LastSet, Fits, Published, KeysBelow, Synced, Torn;
    PublishedDelta(me, w.events, [event]);
    PublishedOne(w.events, event);
    QuietKeeps(me, w.events, [event], w'.events);
    RememberedKeeps(me, w, w');
    forall i | 0 <= i < |w.index.issued|
      ensures SameStanding(me, w.events, w.index.issued[i], w'.events, w'.index.issued[i])
    {
      StandingUntouched(me, w.events, [event], w'.events, w.index.issued[i]);
    }
    SameStandingKeeps(me, w, w');
  }

  lemma PublishedOne(events: seq<Event>, e: Event)
    requires e.signed
    ensures PublishedAll(events, [e]) == Published(events, e)
  {
  }

  /** An entry keeps its standing when its data set stays and nobody is handed a grant of its scope. */
  lemma StandingUntouched(me: Pub, before: seq<Event>, es: seq<Event>, after: seq<Event>, e: IssuedEntry)
    requires Delta(me, before, es, after)
    requires forall s :: Current(after, DataSlot(me, s)) == Current(before, DataSlot(me, s))
    requires forall to, g | GrantEvent(to, g) in es && g.publisher == me :: g.scope != e.scope
    ensures SameStanding(me, before, e, after, e)
  {
    hide Current, LastSet;
    SameDataFits(me, before, after);
    SameGrantsSameHolders(me, before, after, e.scope, e.v);
    SameGrantsSameHolders(me, before, after, e.scope, e.v + 1);
  }

  /** One more grantee, under the key and the generation of the entry. */
  lemma AddedStanding(me: Pub, before: seq<Event>, es: seq<Event>, after: seq<Event>, e: IssuedEntry, pub: Pub,
                      grant: Grant)
    requires Delta(me, before, es, after) && GrantEvent(pub, grant) in es
    requires forall s :: Current(after, DataSlot(me, s)) == Current(before, DataSlot(me, s))
    requires forall to, g :: GrantEvent(to, g) in es ==> to == pub && g == grant
    requires grant.publisher == me && grant.scope == e.scope && grant.v == e.v && pub !in e.grantees
    ensures SameStanding(me, before, e, after, e.(grantees := e.grantees + [pub]))
  {
    hide Current, LastSet;
    SameDataFits(me, before, after);
    SameGrantsSameHolders(me, before, after, e.scope, e.v + 1);
    forall p
      ensures HasGrant(after, me, p, e.scope, e.v) <==> HasGrant(before, me, p, e.scope, e.v) || p == pub
    {
      assert GrantEvent(pub, grant) in after;
      if g :| GrantEvent(p, g) in before && g.publisher == me && g.scope == e.scope && g.v == e.v {
        assert GrantEvent(p, g) in after;
      }
    }
    var e' := e.(grantees := e.grantees + [pub]);
    if Torn(before, me, e) {
      var p :| p in e.grantees && !HasGrant(before, me, p, e.scope, e.v + 1);
      assert p in e'.grantees && !HasGrant(after, me, p, e.scope, e.v + 1);
    }
  }

  /** The grant of an entry fits the data set, whether the entry is current or one generation behind. */
  lemma EntryGrantFits(me: Pub, events: seq<Event>, e: IssuedEntry, terms: Option<Terms>)
    requires Wired(me, events) && (Synced(events, me, e) || Torn(events, me, e))
    ensures Fits(events, me, GrantOf(me, e, terms))
  {
  }

  lemma AddKeeps(me: Pub, w: World, scope: ScopeId, pub: Pub, terms: Terms, at: int, ts: int, r: Outcome, w': World)
    requires Inv(me, w) && Next(me, w, Add(scope, pub, terms, at, ts, r), w')
    ensures Kept(me, w, w', {})
  {
    hide Current, LastSet, Fits, PublishedAll, KeysBelow, Synced, Torn, Remembered, AppendLedger, HasData, DataAt,
         HasGrant, TornScopes;
    PublishedNone(w.events);
    if w' == w {
      Unchanged(me, w);
    } else {
      var i := EntryAt(w.index.issued, scope);
      var entry := w.index.issued[i];
      assert entry in w.index.issued;
      var grant := GrantOf(me, entry, Some(terms));
      var added := AddedIndex(w.index, scope, pub, terms, at);
      var es := if r.Done? then [GrantEvent(pub, grant)] + [IndexEvent(me, ts, added)] else [GrantEvent(pub, grant)];
      assert GrantEvent(pub, grant) in es;
      PublishedDelta(me, w.events, es);
      EntryGrantFits(me, w.events, entry, Some(terms));
      QuietKeeps(me, w.events, es, w'.events);
      RememberedKeeps(me, w, w');
      forall j | 0 <= j < |w.index.issued|
        ensures SameStanding(me, w.events, w.index.issued[j], w'.events, w'.index.issued[j])
      {
        if j == i {
          AddedStanding(me, w.events, es, w'.events, entry, pub, grant);
        } else {
          assert UniqueScopes(w.index.issued);
          StandingUntouched(me, w.events, es, w'.events, w.index.issued[j]);
        }
      }
      SameStandingKeeps(me, w, w');
    }
  }

  lemma Unchanged(me: Pub, w: World)
    requires Inv(me, w)
    ensures Kept(me, w, w, {})
  {
  }

  /** The read-back of a rotation succeeds exactly on an entry that tells the truth. */
  lemma ReadsBack(me: Pub, events: seq<Event>, e: IssuedEntry)
    requires Synced(events, me, e) || Torn(events, me, e)
    ensures FetchScope(events, me, e.scope, e.v, e.key).Read? <==> Synced(events, me, e)
  {
  }

  /** A rotation that started and did not finish: the new data set is out and some survivor is still without its
      grant. */
  ghost predicate BrokeOff(w: World, step: Step) {
    && step.Rotate? && step.r.Broken? && step.scope in Scopes(w.index.issued)
    && 0 < step.r.sent <= |Survivors(w.index.issued[EntryAt(w.index.issued, step.scope)], step.drop)|
  }

  /** A new generation of the scope of entry `i`: it is recorded, or the entry falls behind. */
  lemma MovedKeeps(me: Pub, w: World, es: seq<Event>, w': World, i: nat, e: IssuedEntry)
    requires Inv(me, w) && i < |w.index.issued| && e.scope == w.index.issued[i].scope && e.v == w.index.issued[i].v + 1
             && e.key == w.drawn
    requires Synced(w.events, me, w.index.issued[i])
    requires Delta(me, w.events, es, w'.events) && NewGeneration(me, es, e.scope, e.v, e.key)
    requires KeysBelow(w'.events, w'.drawn) && w'.drawn == w.drawn + 1 && w'.agents == w.agents
    requires if w'.index.issued == w.index.issued
             then (forall p | Gives(es, p) :: p in w.index.issued[i].grantees) && exists p ::
                 p in w.index.issued[i].grantees && !Gives(es, p)
             else w'.index.issued == w.index.issued[i := e] && Once(e.grantees) && forall p ::
                 Gives(es, p) <==> p in e.grantees
    ensures Kept(me, w, w', if w'.index.issued == w.index.issued then {e.scope} else {})
  {
    hide Current, LastSet, Fits, KeysBelow, HasData, DataAt, NewGeneration, Wired, Delta;
    var was, now := w.index.issued, w'.index.issued;
    assert was[i] in was;
    WiredAfterMove(me, w.events, es, w'.events, e.scope, e.v, e.key);
    MoveIsOnward(me, w.events, es, w'.events, e.scope, e.v, e.key);
    RememberedKeeps(me, w, w');
    if now == was {
      BrokenIsTorn(me, w.events, es, w'.events, was[i], e.key);
    } else {
      HandedIsSynced(me, w.events, es, w'.events, e);
    }
    OthersKeep(me, w, es, w', i, e);
  }

  lemma OthersKeep(me: Pub, w: World, es: seq<Event>, w': World, i: nat, e: IssuedEntry)
    requires Inv(me, w) && i < |w.index.issued| && e.scope == w.index.issued[i].scope && e.key == w.drawn
    requires Synced(w.events, me, w.index.issued[i])
    requires Delta(me, w.events, es, w'.events) && NewGeneration(me, es, e.scope, e.v, e.key)
    requires MovedTo(me, w.events, w'.events, e.scope, e.v, e.key)
    requires Wired(me, w'.events) && KeysBelow(w'.events, w'.drawn) && Remembered(me, w') && w'.drawn == w.drawn + 1
    requires Onward(me, w.events, w'.events)
    requires if w'.index.issued == w.index.issued then Torn(w'.events, me, w.index.issued[i])
             else w'.index.issued == w.index.issued[i := e] && Synced(w'.events, me, e)
    ensures Kept(me, w, w', if w'.index.issued == w.index.issued then {e.scope} else {})
  {
    hide Current, LastSet, Fits, KeysBelow, HasData, DataAt, NewGeneration, Wired, Delta, MovedTo, Synced, Torn,
         Remembered, Onward;
    var was, now := w.index.issued, w'.index.issued;
    forall j | 0 <= j < |was|
      ensures now[j].scope == was[j].scope && now[j].key < w'.drawn
      ensures Synced(w'.events, me, now[j]) || Torn(w'.events, me, now[j])
      ensures Torn(w'.events, me, now[j]) <==> Torn(w.events, me, was[j]) || (now == was && j == i)
    {
      assert was[j] in was;
      NotBoth(me, w.events, was[j]);
      NotBoth(me, w'.events, now[j]);
      if j != i {
        OtherEntriesKeep(me, w.events, es, w'.events, e.scope, e.v, e.key, was[j]);
      }
    }
    forall s
      ensures s in TornScopes(me, w') <==> s in TornScopes(me, w) || (now == was && s == e.scope)
    {
      if s in TornScopes(me, w') {
        var j :| 0 <= j < |now| && now[j].scope == s && Torn(w'.events, me, now[j]);
        assert was[j] in was;
      }
      if s in TornScopes(me, w) {
        var j :| 0 <= j < |was| && was[j].scope == s && Torn(w.events, me, was[j]);
        assert now[j] in now;
      }
      assert now == was ==> now[i] in now;
    }
  }

  /** The scopes a step tears. */
  ghost function Tore(w: World, step: Step): set<ScopeId> {
    if BrokeOff(w, step) then {step.scope} else {}
  }

  lemma RotateKeeps(me: Pub, w: World, step: Step, w': World)
    requires Inv(me, w) && step.Rotate? && Next(me, w, step, w')
    ensures Kept(me, w, w', Tore(w, step))
  {
    hide Current, LastSet, Fits, PublishedAll, KeysBelow, Synced, Torn, Remembered, RotationEvents, AppendAll,
         FetchScope, HasData, DataAt, RotationTail;
    if step.scope !in Scopes(w.index.issued) {
      DrawnKeeps(me, w, w');
    } else {
      var i := EntryAt(w.index.issued, step.scope);
      var entry := w.index.issued[i];
      assert entry in w.index.issued;
      ReadsBack(me, w.events, entry);
      match FetchAnswered(w.events, me, step.scope, entry.v, entry.key, step.answered)
      case Read(_, data) =>
        TailGoesOn(me, w, step, entry, data, w');
        RotationKeeps(me, w, step, i, data, w');
      case _ => DrawnKeeps(me, w, w');
    }
  }

  lemma TailGoesOn(me: Pub, w: World, step: Step, entry: IssuedEntry, data: Payload, w': World)
    requires step.Rotate? && step.scope in Scopes(w.index.issued)
    requires RotationTail(me, w.events, w.index, entry, step.drop, w.drawn, data, step.ts,
                          AfterRotation(w.index, step.scope, step.drop, w.drawn, step.make), step.r, w'.events,
                          w'.index)
    ensures !step.r.Refused?
  {
  }

  lemma WiredSlots(me: Pub, events: seq<Event>)
    requires Wired(me, events)
    ensures OnePerSlot(events)
  {
  }

  /** Nothing happened but that a key was drawn. */
  lemma DrawnKeeps(me: Pub, w: World, w': World)
    requires Inv(me, w) && w'.events == w.events && w'.index == w.index && w'.agents == w.agents && w.drawn <= w'.drawn
    ensures Kept(me, w, w', {})
  {
  }

  /** The rotation of entry `i`, read back as `data`. */
  lemma RotationKeeps(me: Pub, w: World, step: Step, i: nat, data: Payload, w': World)
    requires Inv(me, w) && step.Rotate? && step.scope in Scopes(w.index.issued)
             && i == EntryAt(w.index.issued, step.scope)
    requires Synced(w.events, me, w.index.issued[i])
    requires RotationTail(me, w.events, w.index, w.index.issued[i], step.drop, w.drawn, data, step.ts,
                          AfterRotation(w.index, step.scope, step.drop, w.drawn, step.make), step.r, w'.events,
                              w'.index)
    requires KeysBelow(w'.events, w'.drawn) && w'.drawn == w.drawn + 1 && w'.agents == w.agents
    ensures Kept(me, w, w', Tore(w, step))
  {
    hide Current, LastSet, Fits, PublishedAll, KeysBelow, Synced, Torn, Remembered, RotationEvents, AppendAll, HasData,
         DataAt, NewGeneration, Wired, Delta, Gives, Survivors;
    var entry := w.index.issued[i];
    var rotated := RotatedEntry(entry, step.drop, w.drawn);
    var all := RotationEvents(me, w.index, entry, step.drop, w.drawn, data, step.ts);
    PublishedNone(w.events);
    assert OnePerSlot(w.events) by { WiredSlots(me, w.events); }
    assert all[..0] == [] && all[..|all|] == all;
    if step.r == Broken(0) {
      DrawnKeeps(me, w, w');
    } else {
      var n := if step.r.Broken? then step.r.sent else |all|;
      RotationGives(me, w.index, entry, step.drop, w.drawn, data, step.ts, n);
      SurvivorsOf(entry, step.drop, n - 1);
      assert Once(Survivors(entry, step.drop)) by { SurvivorsOnce(me, w.events, entry, step.drop); }
      ReplacedOne(w.index.issued, i, rotated);
      if step.r.Broken? {
        if n <= |Survivors(entry, step.drop)| {
          LeftOut(entry, step.drop, n - 1);
        }
        PublishedDelta(me, w.events, all[..n]);
        MovedKeeps(me, w, all[..n], w', i, rotated);
      } else {
        var after := AfterRotation(w.index, step.scope, step.drop, w.drawn, step.make);
        WithIndex(me, all[..n], entry.scope, rotated.v, w.drawn, step.ts + 1, after);
        PublishedDelta(me, w.events, all + [IndexEvent(me, step.ts + 1, after)]);
        MovedKeeps(me, w, all + [IndexEvent(me, step.ts + 1, after)], w', i, rotated);
      }
    }
  }

  lemma {:induction false} FilterOnce(keep: Pub -> bool, ps: seq<Pub>)
    requires Once(ps)
    ensures Once(Filter(keep, ps))
  {
    if ps != [] {
      FilterOnce(keep, ps[1..]);
      assert forall p | p in ps[1..] :: p != ps[0];
    }
  }

  lemma SurvivorsOnce(me: Pub, events: seq<Event>, entry: IssuedEntry, drop: seq<Pub>)
    requires Synced(events, me, entry)
    ensures Once(Survivors(entry, drop))
  {
    FilterOnce(NotIn(drop), entry.grantees);
  }

  /** The next survivor to be served is a grantee that was not served yet. */
  lemma LeftOut(entry: IssuedEntry, drop: seq<Pub>, n: nat)
    requires n < |Survivors(entry, drop)| && Once(Survivors(entry, drop))
    ensures exists p :: p in entry.grantees && p !in Survivors(entry, drop)[..n]
  {
    var p := Survivors(entry, drop)[n];
    assert p in Survivors(entry, drop);
  }

  lemma SurvivorsOf(entry: IssuedEntry, drop: seq<Pub>, n: nat)
    requires n <= |Survivors(entry, drop)|
    ensures forall p | p in Survivors(entry, drop)[..n] :: p in entry.grantees && p !in drop
    ensures Survivors(entry, drop)[..|Survivors(entry, drop)|] == Survivors(entry, drop)
  {
  }

  /** Among unique scopes, replacing the entries of a scope replaces one entry. */
  lemma ReplacedOne(issued: seq<IssuedEntry>, i: nat, e: IssuedEntry)
    requires UniqueScopes(issued) && i < |issued| && issued[i].scope == e.scope
    ensures Replaced(issued, e) == issued[i := e]
  {
  }

  /** A scope that was not there before is on the relay, and perhaps recorded. */
  lemma NewScopeKeeps(me: Pub, w: World, es: seq<Event>, w': World, e: IssuedEntry)
    requires Inv(me, w) && !HasData(w.events, me, e.scope) && e.key == w.drawn
    requires Delta(me, w.events, es, w'.events) && NewGeneration(me, es, e.scope, e.v, e.key)
    requires KeysBelow(w'.events, w'.drawn) && w'.drawn == w.drawn + 1 && w'.agents == w.agents
    requires w'.index.issued == w.index.issued
             || (w'.index.issued == w.index.issued + [e] && Once(e.grantees) && forall p ::
                Gives(es, p) <==> p in e.grantees)
    ensures Kept(me, w, w', {})
  {
    hide Current, LastSet, Fits, KeysBelow, HasData, DataAt, NewGeneration, Wired, Delta, Remembered, MovedTo, Onward;
    var was, now := w.index.issued, w'.index.issued;
    WiredAfterMove(me, w.events, es, w'.events, e.scope, e.v, e.key);
    MoveIsOnward(me, w.events, es, w'.events, e.scope, e.v, e.key);
    RememberedKeeps(me, w, w');
    if now != was {
      HandedIsSynced(me, w.events, es, w'.events, e);
    }
    NewScopeStands(me, w, es, w', e);
  }

  lemma NewScopeStands(me: Pub, w: World, es: seq<Event>, w': World, e: IssuedEntry)
    requires Inv(me, w) && !HasData(w.events, me, e.scope) && e.key == w.drawn
    requires Delta(me, w.events, es, w'.events) && NewGeneration(me, es, e.scope, e.v, e.key)
    requires MovedTo(me, w.events, w'.events, e.scope, e.v, e.key)
    requires Wired(me, w'.events) && KeysBelow(w'.events, w'.drawn) && Remembered(me, w') && w'.drawn == w.drawn + 1
    requires Onward(me, w.events, w'.events)
    requires w'.index.issued == w.index.issued || (w'.index.issued == w.index.issued + [e] && Synced(w'.events, me, e))
    ensures Kept(me, w, w', {})
  {
    hide Current, LastSet, Fits, KeysBelow, HasData, DataAt, NewGeneration, Wired, Delta, Remembered, MovedTo, Onward;
    var was, now := w.index.issued, w'.index.issued;
    forall j | 0 <= j < |was|
      ensures was[j].scope != e.scope && now[j] == was[j] && now[j].key < w'.drawn
      ensures Synced(w'.events, me, now[j]) || Torn(w'.events, me, now[j])
      ensures Torn(w'.events, me, now[j]) <==> Torn(w.events, me, was[j])
    {
      assert was[j] in was;
      NotBoth(me, w.events, was[j]);
      NotBoth(me, w'.events, now[j]);
      OtherEntriesKeep(me, w.events, es, w'.events, e.scope, e.v, e.key, was[j]);
    }
    NotBoth(me, w'.events, e);
    hide Synced, Torn;
    forall s
      ensures s in TornScopes(me, w') <==> s in TornScopes(me, w)
    {
      if s in TornScopes(me, w') {
        var j :| 0 <= j < |now| && now[j].scope == s && Torn(w'.events, me, now[j]);
        assert j < |was| && was[j] in was;
      }
      if s in TornScopes(me, w) {
        var j :| 0 <= j < |was| && was[j].scope == s && Torn(w.events, me, was[j]);
        assert now[j] in now;
      }
    }
  }

  lemma IssueKeeps(me: Pub, w: World, step: Step, w': World)
    requires Inv(me, w) && step.Issue? && Next(me, w, step, w')
    ensures Kept(me, w, w', {})
  {
    hide LastSet, Fits, PublishedAll, KeysBelow, Synced, Torn, Remembered, AppendLedger, NewGeneration, Wired, Delta,
         Gives;
    var entry := IssuedEntry(step.scope, step.name, 1, w.drawn, [step.agent]);
    var sealed := SetEvent(me, step.scope, step.ts, 1, w.drawn, step.data);
    var wrap := GrantEvent(step.agent, GrantOf(me, entry, Some(step.terms)));
    assert OnePerSlot(w.events) by { WiredSlots(me, w.events); }
    assert !HasData(w.events, me, step.scope);
    hide Current, HasData;
    PublishedNone(w.events);
    IssueGives(me, entry, step.agent, step.terms, step.data, step.ts);
    if step.r == Broken(0) {
      DrawnKeeps(me, w, w');
    } else if step.r == Broken(1) {
      PublishedDelta(me, w.events, [sealed]);
      NewScopeKeeps(me, w, [sealed], w', entry);
    } else if step.r == Broken(2) {
      PublishedDelta(me, w.events, [sealed, wrap]);
      NewScopeKeeps(me, w, [sealed, wrap], w', entry);
    } else {
      var saved := IndexEvent(me, step.ts + 1, IssuedIndex(w.index, entry, step.agent, step.terms, step.at));
      WithIndex(me, [sealed, wrap], entry.scope, 1, w.drawn, step.ts + 1,
                IssuedIndex(w.index, entry, step.agent, step.terms, step.at));
      PublishedDelta(me, w.events, [sealed, wrap] + [saved]);
      NewScopeKeeps(me, w, [sealed, wrap] + [saved], w', entry);
    }
  }

  // ---------------------------------------------------------------- what the agents remember

  /** `latestGrants` keeps a grant of the scope that no other one outranks. */
  lemma {:induction false} LatestIs(received: seq<Grant>, scope: ScopeId)
    ensures match Latest(received, scope)
            case Some(g) => g in received && g.scope == scope && forall h | h in received && h.scope == scope ::
                h.v <= g.v
            case None => forall h | h in received :: h.scope != scope
    decreases |received|
  {
    if received != [] {
      LatestIs(received[..|received| - 1], scope);
      assert received == received[..|received| - 1] + [received[|received| - 1]];
    }
  }

  /** A fitting grant is refused as stale only when the data set is a generation ahead of it. */
  lemma StaleMeansRotated(me: Pub, events: seq<Event>, g: Grant)
    requires Wired(me, events) && Fits(events, me, g)
    ensures FetchScope(events, me, g.scope, g.v, g.key).Read? <==> g.v == DataAt(events, me, g.scope).v
    ensures FetchScope(events, me, g.scope, g.v, g.key).Stale? <==> g.v < DataAt(events, me, g.scope).v
  {
  }

  lemma AgentsKeep(me: Pub, w: World, step: Step, w': World)
    requires Inv(me, w) && (step.Refresh? || step.Dereference?) && Next(me, w, step, w')
    ensures Kept(me, w, w', {})
  {
    hide Current, FetchScope, KeysBelow, Synced, Torn, HasData, DataAt, Latest;
    if step.Refresh? {
      forall s | s in Cached(step.received)
        ensures Cached(step.received)[s].scope == s && Cached(step.received)[s] in step.received
      {
        LatestIs(step.received, s);
      }
    } else {
      var a := AgentOf(w, step.agent);
      if step.scope in a.cached {
        var g := a.cached[step.scope];
        assert GrantEvent(step.agent, g) in w.events;
        StaleMeansRotated(me, w.events, g);
      }
    }
    hide Wired;
    assert Remembered(me, w');
    hide Remembered;
    assert TornScopes(me, w') == TornScopes(me, w);
  }

  lemma NotifyKeeps(me: Pub, w: World, p: Pub, scope: ScopeId, w': World)
    requires Inv(me, w) && Next(me, w, Notify(p, scope), w')
    ensures Kept(me, w, w', {})
  {
    hide Inv, Kept, Published;
    ElsewhereKeeps(me, w, NoticeEvent(me, p, scope), w');
  }

  // ---------------------------------------------------------------- runs

  lemma NextKeeps(me: Pub, w: World, step: Step, w': World)
    requires Inv(me, w) && Next(me, w, step, w')
    ensures Kept(me, w, w', Tore(w, step))
  {
    hide Inv, Kept;
    match step
    case Issue(_, _, _, _, _, _, _, _) => IssueKeeps(me, w, step, w');
    case Add(scope, pub, terms, at, ts, r) => AddKeeps(me, w, scope, pub, terms, at, ts, r, w');
    case Rotate(_, _, _, _, _, _) => RotateKeeps(me, w, step, w');
    case Notify(p, scope) => NotifyKeeps(me, w, p, scope, w');
    case Refresh(_, _) => AgentsKeep(me, w, step, w');
    case Dereference(_, _, _, _) => AgentsKeep(me, w, step, w');
    case Elsewhere(event) => ElsewhereKeeps(me, w, event, w');
  }

  lemma EmptyWorld(me: Pub)
    ensures Inv(me, World([], EMPTY_INDEX, 0, map[])) && TornScopes(me, World([], EMPTY_INDEX, 0, map[])) == {}
  {
  }

  /** Every reachable state satisfies the invariant, and a scope is torn exactly when some rotation of it broke off. */
  lemma {:induction false} RunKeeps(me: Pub, ws: seq<World>, steps: seq<Step>, n: nat)
    requires Run(me, ws, steps) && n <= |steps|
    ensures Inv(me, ws[n])
    ensures forall s ::
            s in TornScopes(me, ws[n]) <==> exists i :: 0 <= i < n && BrokeOff(ws[i], steps[i]) && steps[i].scope == s
    decreases n
  {
    hide Inv, TornScopes, BrokeOff, Next;
    if n == 0 {
      EmptyWorld(me);
    } else {
      RunKeeps(me, ws, steps, n - 1);
      NextKeeps(me, ws[n - 1], steps[n - 1], ws[n]);
    }
  }

  /** Over a whole run, too, grants stay delivered and generations never go back. */
  lemma {:induction false} RunGoesOn(me: Pub, ws: seq<World>, steps: seq<Step>, n: nat, m: nat)
    requires Run(me, ws, steps) && n <= m <= |steps|
    ensures Onward(me, ws[n].events, ws[m].events)
    decreases m
  {
    hide Inv, TornScopes, BrokeOff, Next, HasData, DataAt;
    if n < m {
      RunGoesOn(me, ws, steps, n, m - 1);
      RunKeeps(me, ws, steps, m - 1);
      NextKeeps(me, ws[m - 1], steps[m - 1], ws[m]);
    }
  }

  /** A grant that the scope has moved past never opens anything again. */
  lemma PastForGood(me: Pub, ws: seq<World>, steps: seq<Step>, n: nat, m: nat, p: Pub, g: Grant)
    requires Run(me, ws, steps) && n <= m <= |steps|
    requires GrantEvent(p, g) in ws[n].events && g.publisher == me
    requires HasData(ws[n].events, me, g.scope) && g.v < DataAt(ws[n].events, me, g.scope).v
    ensures HasData(ws[m].events, me, g.scope) && g.v < DataAt(ws[m].events, me, g.scope).v
    ensures FetchScope(ws[m].events, me, g.scope, g.v, g.key).Stale?
  {
    hide TornScopes, BrokeOff, Next, HasData, DataAt, FetchScope, Listed, Remembered, KeysBelow;
    RunGoesOn(me, ws, steps, n, m);
    RunKeeps(me, ws, steps, m);
    StaleMeansRotated(me, ws[m].events, g);
  }

  /** The agent's newest grant of the scope opens the data set. */
  ghost predicate CanRead(me: Pub, events: seq<Event>, received: seq<Grant>, scope: ScopeId) {
    match Latest(received, scope)
    case Some(g) => FetchScope(events, me, scope, g.v, g.key).Read?
    case None => false
  }

  /** An entry that tells the truth: its grantees can read, and nobody else has a grant or a key of this generation. */
  lemma EntryIsTruth(me: Pub, w: World, e: IssuedEntry, p: Pub, received: seq<Grant>)
    requires Inv(me, w) && e in w.index.issued && Synced(w.events, me, e) && Inbox(me, w.events, p, received)
    ensures CanRead(me, w.events, received, e.scope) <==> p in e.grantees
    ensures p !in e.grantees ==> forall g | g in received :: g.key != e.key && (g.scope == e.scope ==> g.v < e.v)
  {
    hide Current, FetchScope, KeysBelow, HasData, DataAt, Latest;
    LatestIs(received, e.scope);
    forall g | g in received
      ensures Fits(w.events, me, g)
      ensures g.scope == e.scope ==> g.v <= e.v && (FetchScope(w.events, me, e.scope, g.v, g.key).Read? <==> g.v == e.v)
      ensures g.key == e.key ==> g.scope == e.scope && g.v == e.v
      ensures g.scope == e.scope && g.v == e.v ==> p in e.grantees
    {
      assert GrantEvent(p, g) in w.events;
      if g.scope == e.scope {
        StaleMeansRotated(me, w.events, g);
      }
      if g.scope == e.scope && g.v == e.v {
        assert HasGrant(w.events, me, p, e.scope, e.v);
      }
    }
    if p in e.grantees {
      var g :| GrantEvent(p, g) in w.events && g.publisher == me && g.scope == e.scope && g.v == e.v;
      assert g in received;
    }
  }

  /** A torn entry: nobody reads more than a former grantee, and the entry's own key opens nothing any more. */
  lemma TornIsSafe(me: Pub, w: World, e: IssuedEntry, p: Pub, received: seq<Grant>)
    requires Inv(me, w) && e in w.index.issued && Torn(w.events, me, e) && Inbox(me, w.events, p, received)
    ensures CanRead(me, w.events, received, e.scope) ==> p in e.grantees
    ensures !FetchScope(w.events, me, e.scope, e.v, e.key).Read?
  {
    hide Current, KeysBelow, HasData, DataAt, Latest;
    ReadsBack(me, w.events, e);
    NotBoth(me, w.events, e);
    hide FetchScope;
    LatestIs(received, e.scope);
    if CanRead(me, w.events, received, e.scope) {
      var g := Latest(received, e.scope).value;
      assert GrantEvent(p, g) in w.events;
      StaleMeansRotated(me, w.events, g);
      assert HasGrant(w.events, me, p, e.scope, e.v + 1);
    }
  }

  /** The grants of `me` that were delivered to `p`, in the order of the relay. */
  function GrantsTo(me: Pub, events: seq<Event>, p: Pub): (r: seq<Grant>)
    ensures forall g :: g in r <==> GrantEvent(p, g) in events && g.publisher == me
  {
    if events == [] then []
    else
      var rest := GrantsTo(me, events[1..], p);
      assert forall e :: e in events <==> e == events[0] || e in events[1..];
      if events[0].body.GiftWrap? && events[0] == GrantEvent(p, events[0].body.grant)
          && events[0].body.grant.publisher == me
      then [events[0].body.grant] + rest else rest
  }

  /** The entry lists exactly the identities that can read. */
  ghost predicate Truthful(me: Pub, events: seq<Event>, e: IssuedEntry) {
    forall p, received | Inbox(me, events, p, received) :: CanRead(me, events, received, e.scope) <==> p in e.grantees
  }

  /** In a torn scope somebody who is listed cannot read. */
  lemma TornIsNotTruthful(me: Pub, w: World, e: IssuedEntry)
    requires Inv(me, w) && e in w.index.issued && Torn(w.events, me, e)
    ensures !Truthful(me, w.events, e)
  {
    hide Current, KeysBelow, HasData, DataAt, Latest, FetchScope;
    var p :| p in e.grantees && !HasGrant(w.events, me, p, e.scope, e.v + 1);
    var received := GrantsTo(me, w.events, p);
    LatestIs(received, e.scope);
    assert Inbox(me, w.events, p, received);
    assert forall g | g in received && g.scope == e.scope :: g.v != e.v + 1;
    match Latest(received, e.scope)
    case Some(g) =>
      assert GrantEvent(p, g) in w.events;
      StaleMeansRotated(me, w.events, g);
    case None =>
  }

  /** Index truth over whole runs: an entry lists exactly the identities that can read if and only if no rotation of its
      scope broke off half way; and then everybody else has only older grants, and no key of this generation. */
  lemma IndexTruth(me: Pub, ws: seq<World>, steps: seq<Step>, n: nat, e: IssuedEntry)
    requires Run(me, ws, steps) && n <= |steps| && e in ws[n].index.issued
    ensures Truthful(me, ws[n].events, e) <==> forall i | 0 <= i < n && BrokeOff(ws[i], steps[i]) ::
            steps[i].scope != e.scope
    ensures Truthful(me, ws[n].events, e) ==>
              forall p, received, g: Grant | Inbox(me, ws[n].events, p, received) && p !in e.grantees
                  && g in received ::
                g.key != e.key && (g.scope == e.scope ==> g.v < e.v)
  {
    hide Current, FetchScope, KeysBelow, HasData, DataAt, Latest, Next, BrokeOff, CanRead, Synced, Torn, Wired,
         Remembered, Inbox;
    RunKeeps(me, ws, steps, n);
    if Torn(ws[n].events, me, e) {
      assert e.scope in TornScopes(me, ws[n]);
      TornIsNotTruthful(me, ws[n], e);
    } else {
      assert e.scope !in TornScopes(me, ws[n]);
      forall p, received | Inbox(me, ws[n].events, p, received)
        ensures CanRead(me, ws[n].events, received, e.scope) <==> p in e.grantees
        ensures p !in e.grantees ==> forall g: Grant | g in received ::
                g.key != e.key && (g.scope == e.scope ==> g.v < e.v)
      {
        EntryIsTruth(me, ws[n], e, p, received);
      }
    }
  }

  /** Once torn, a scope can never be rotated again: every further rotation is refused and changes nothing. */
  lemma TornIsStuck(me: Pub, w: World, step: Step, w': World)
    requires Inv(me, w) && step.Rotate? && step.scope in TornScopes(me, w) && Next(me, w, step, w')
    ensures step.r == Refused(NotReadable) && w'.events == w.events && w'.index == w.index
  {
    hide Current, FetchScope, KeysBelow, HasData, DataAt, Synced, Torn, RotationTail;
    var e :| e in w.index.issued && Torn(w.events, me, e) && e.scope == step.scope;
    var entry := w.index.issued[EntryAt(w.index.issued, step.scope)];
    assert entry in w.index.issued;
    assert entry == e;
    ReadsBack(me, w.events, entry);
    NotBoth(me, w.events, entry);
  }

  // ---------------------------------------------------------------- a rotation that stops anywhere

  /** What a rotation that was not refused has sent when it stops. */
  lemma RotationSent(me: Pub, w: World, step: Step, entry: IssuedEntry, w': World) returns (es: seq<Event>)
    requires Inv(me, w) && step.Rotate? && Next(me, w, step, w') && !step.r.Refused?
    requires step.scope in Scopes(w.index.issued) && entry == w.index.issued[EntryAt(w.index.issued, step.scope)]
    ensures Synced(w.events, me, entry) && Delta(me, w.events, es, w'.events)
    ensures es == [] <==> step.r == Broken(0)
    ensures es != [] ==> NewGeneration(me, es, entry.scope, entry.v + 1, w.drawn)
    ensures forall p | Gives(es, p) :: p in entry.grantees && p !in step.drop
  {
    hide Current, LastSet, Fits, PublishedAll, KeysBelow, Synced, Torn, Remembered, RotationEvents, AppendAll, HasData,
         DataAt, NewGeneration, Wired, Delta, Gives, Survivors, FetchScope, AfterRotation;
    assert entry in w.index.issued;
    ReadsBack(me, w.events, entry);
    var data := FetchScope(w.events, me, entry.scope, entry.v, entry.key).data;
    var all := RotationEvents(me, w.index, entry, step.drop, w.drawn, data, step.ts);
    assert OnePerSlot(w.events) by { WiredSlots(me, w.events); }
    assert all[..0] == [] && all[..|all|] == all;
    var n := if step.r.Broken? then step.r.sent else |all|;
    es := all[..n];
    if n == 0 {
      NothingGiven();
    } else {
      RotationGives(me, w.index, entry, step.drop, w.drawn, data, step.ts, n);
      SurvivorsOf(entry, step.drop, n - 1);
      if step.r.Done? {
        var after := AfterRotation(w.index, step.scope, step.drop, w.drawn, step.make);
        WithIndex(me, es, entry.scope, entry.v + 1, w.drawn, step.ts + 1, after);
        es := es + [IndexEvent(me, step.ts + 1, after)];
      }
    }
    PublishedDelta(me, w.events, es);
  }

  lemma NothingGiven()
    ensures forall p :: !Gives([], p)
  {
  }

  /** Wherever a rotation stops: every new grant went to an old grantee that is not dropped; once the new data set is
      out, a dropped identity holds no key for it; and a refused rotation left no trace. */
  lemma AbortedRotationIsSafe(me: Pub, w: World, step: Step, w': World, p: Pub, received: seq<Grant>)
    requires Inv(me, w) && step.Rotate? && Next(me, w, step, w') && Inbox(me, w'.events, p, received)
    requires step.scope in Scopes(w.index.issued)
    ensures var entry := w.index.issued[EntryAt(w.index.issued, step.scope)];
            && (step.r.Refused? <==> !FetchAnswered(w.events, me, entry.scope, entry.v, entry.key, step.answered).Read?)
            && (step.r.Refused? ==> w'.events == w.events && w'.index == w.index)
            && (forall g | g in received && GrantEvent(p, g) !in w.events ::
                  g.scope == entry.scope && g.v == entry.v + 1 && p in entry.grantees && p !in step.drop)
            && (!step.r.Refused? && step.r != Broken(0) ==>
                  && HasData(w'.events, me, entry.scope) && DataAt(w'.events, me, entry.scope).v == entry.v + 1
                  && (p in step.drop ==>
                        !CanRead(me, w'.events, received, entry.scope)
                        && forall g | g in received :: g.key != DataAt(w'.events, me, entry.scope).key))
  {
    hide Current, LastSet, KeysBelow, Torn, Remembered, HasData, DataAt, FetchScope, RotationTail, NewGeneration, Inv,
         CanRead;
    var entry := w.index.issued[EntryAt(w.index.issued, step.scope)];
    assert entry in w.index.issued;
    assert step.r.Refused? <==> !FetchAnswered(w.events, me, entry.scope, entry.v, entry.key, step.answered).Read? by {
      RefusedWhenUnreadable(me, w, step, w');
    }
    if !step.r.Refused? {
      var es := RotationSent(me, w, step, entry, w');
      if es != [] {
        DroppedCannotRead(me, w, step, entry, es, w', p, received);
      }
      forall g | g in received && GrantEvent(p, g) !in w.events
        ensures g.scope == entry.scope && g.v == entry.v + 1 && p in entry.grantees && p !in step.drop
      {
        assert GrantEvent(p, g) in es;
        GivenGrants(me, es, entry.scope, entry.v + 1, w.drawn, p, g);
      }
    }
  }

  lemma RefusedWhenUnreadable(me: Pub, w: World, step: Step, w': World)
    requires step.Rotate? && Next(me, w, step, w') && step.scope in Scopes(w.index.issued)
    ensures var entry := w.index.issued[EntryAt(w.index.issued, step.scope)];
            step.r.Refused? <==> !FetchAnswered(w.events, me, entry.scope, entry.v, entry.key, step.answered).Read?
    ensures step.r.Refused? ==> w'.events == w.events && w'.index == w.index
  {
    hide FetchScope, PublishedAll, RotationEvents, AfterRotation;
  }

  lemma DroppedCannotRead(me: Pub, w: World, step: Step, entry: IssuedEntry, es: seq<Event>, w': World, p: Pub,
                          received: seq<Grant>)
    requires Inv(me, w) && step.Rotate? && Next(me, w, step, w') && Inbox(me, w'.events, p, received)
    requires Synced(w.events, me, entry) && Delta(me, w.events, es, w'.events)
    requires NewGeneration(me, es, entry.scope, entry.v + 1, w.drawn)
    requires forall q | Gives(es, q) :: q in entry.grantees && q !in step.drop
    ensures HasData(w'.events, me, entry.scope) && DataAt(w'.events, me, entry.scope).v == entry.v + 1
    ensures p in step.drop ==>
              !CanRead(me, w'.events, received, entry.scope)
              && forall g | g in received :: g.key != DataAt(w'.events, me, entry.scope).key
  {
    hide Current, LastSet, KeysBelow, Torn, Remembered, HasData, DataAt, FetchScope, NewGeneration, Next, Latest;
    WiredAfterMove(me, w.events, es, w'.events, entry.scope, entry.v + 1, w.drawn);
    HoldersOfNew(me, w.events, es, w'.events, entry.scope, entry.v + 1, w.drawn, p);
    LatestIs(received, entry.scope);
    forall g | g in received && p in step.drop
      ensures g.key != DataAt(w'.events, me, entry.scope).key
      ensures g.scope == entry.scope ==> !FetchScope(w'.events, me, entry.scope, g.v, g.key).Read?
    {
      assert GrantEvent(p, g) in w'.events && Fits(w'.events, me, g);
      if g.scope == entry.scope {
        StaleMeansRotated(me, w'.events, g);
      }
      assert !(g.scope == entry.scope && g.v == entry.v + 1);
    }
  }

  // ---------------------------------------------------------------- relays that lag behind

  /** A key of generation `v` opens the data set in `seen` exactly when that is of the same generation. */
  ghost predicate Matches(me: Pub, seen: seq<Event>, scope: ScopeId, v: nat, key: Key) {
    HasData(seen, me, scope) ==> (key == DataAt(seen, me, scope).key <==> v == DataAt(seen, me, scope).v)
  }

  /** What a later state of a run knows about the data sets of an earlier one: none is newer than now, and every key
      that was handed out or is on record opens there what it opened then. */
  ghost predicate Behind(me: Pub, seen: seq<Event>, w: World) {
    && (forall s | HasData(seen, me, s) ::
          DataAt(seen, me, s).key < w.drawn && HasData(w.events, me, s)
              && DataAt(seen, me, s).v <= DataAt(w.events, me, s).v)
    && (forall to, g | GrantEvent(to, g) in w.events && g.publisher == me :: Matches(me, seen, g.scope, g.v, g.key))
    && forall e | e in w.index.issued :: Matches(me, seen, e.scope, e.v, e.key)
  }

  lemma BehindNow(me: Pub, w: World)
    requires Inv(me, w)
    ensures Behind(me, w.events, w)
  {
    hide Current, LastSet, HasGrant;
    KeysAreOld(me, w.events, w.drawn);
  }

  /** The generation and the key are on record already, or both are new. */
  ghost predicate Known(me: Pub, w: World, scope: ScopeId, v: nat, key: Key) {
    || (exists e :: e in w.index.issued && e.scope == scope && e.v == v && e.key == key)
    || (key == w.drawn && (HasData(w.events, me, scope) ==> DataAt(w.events, me, scope).v < v))
  }

  /** A step hands out and records only such keys. */
  ghost predicate HandsOutKnown(me: Pub, w: World, w': World) {
    && (forall to, g | GrantEvent(to, g) in w'.events && g.publisher == me ::
          GrantEvent(to, g) in w.events || Known(me, w, g.scope, g.v, g.key))
    && forall e | e in w'.index.issued :: Known(me, w, e.scope, e.v, e.key)
  }

  lemma OldIsKnown(me: Pub, w: World)
    ensures forall e | e in w.index.issued :: Known(me, w, e.scope, e.v, e.key)
  {
  }

  /** A new generation hands out one key. */
  lemma GenerationHandsOut(me: Pub, w: World, es: seq<Event>, w': World, scope: ScopeId, v: nat, key: Key)
    requires Delta(me, w.events, es, w'.events) && NewGeneration(me, es, scope, v, key) && Known(me, w, scope, v, key)
    requires forall e | e in w'.index.issued :: e in w.index.issued || (e.scope == scope && e.v == v && e.key == key)
    ensures HandsOutKnown(me, w, w')
  {
    OldIsKnown(me, w);
    hide Known, LastSet, Current, NewGeneration;
    forall to, g | GrantEvent(to, g) in es
      ensures Known(me, w, g.scope, g.v, g.key)
    {
      GivenGrants(me, es, scope, v, key, to, g);
    }
  }

  lemma IssueHandsOut(me: Pub, w: World, step: Step, w': World)
    requires Inv(me, w) && step.Issue? && Next(me, w, step, w')
    ensures HandsOutKnown(me, w, w')
  {
    hide LastSet, PublishedAll, KeysBelow, Listed, Remembered, NewGeneration, Wired, Delta, Gives, HandsOutKnown;
    var entry := IssuedEntry(step.scope, step.name, 1, w.drawn, [step.agent]);
    assert Known(me, w, step.scope, 1, w.drawn);
    assert OnePerSlot(w.events) by { WiredSlots(me, w.events); }
    hide Known, Current, HasData;
    var sealed := SetEvent(me, step.scope, step.ts, 1, w.drawn, step.data);
    var wrap := GrantEvent(step.agent, GrantOf(me, entry, Some(step.terms)));
    var recorded := IssuedIndex(w.index, entry, step.agent, step.terms, step.at);
    PublishedNone(w.events);
    IssueGives(me, entry, step.agent, step.terms, step.data, step.ts);
    if step.r == Broken(0) {
      NothingHandedOut(me, w, [], w');
    } else {
      var es := [sealed, wrap];
      if step.r == Broken(1) {
        es := [sealed];
      } else if step.r.Done? {
        WithIndex(me, es, step.scope, 1, w.drawn, step.ts + 1, recorded);
        es := es + [IndexEvent(me, step.ts + 1, recorded)];
      }
      PublishedDelta(me, w.events, es);
      GenerationHandsOut(me, w, es, w', step.scope, 1, w.drawn);
    }
  }

  lemma AddHandsOut(me: Pub, w: World, step: Step, w': World)
    requires Inv(me, w) && step.Add? && Next(me, w, step, w')
    ensures HandsOutKnown(me, w, w')
  {
    hide Current, LastSet, PublishedAll, KeysBelow, Listed, Remembered, HasData;
    assert OnePerSlot(w.events) by { WiredSlots(me, w.events); }
    OldIsKnown(me, w);
    PublishedNone(w.events);
    if step.scope in Scopes(w.index.issued) {
      var entry := w.index.issued[EntryAt(w.index.issued, step.scope)];
      assert entry in w.index.issued;
      hide Known, Wired;
      var wrap := GrantEvent(step.pub, GrantOf(me, entry, Some(step.terms)));
      var added := AddedIndex(w.index, step.scope, step.pub, step.terms, step.at);
      PublishedDelta(me, w.events, [wrap]);
      PublishedDelta(me, w.events, [wrap] + [IndexEvent(me, step.ts, added)]);
    }
  }

  lemma RotateHandsOut(me: Pub, w: World, step: Step, w': World)
    requires Inv(me, w) && step.Rotate? && Next(me, w, step, w')
    ensures HandsOutKnown(me, w, w')
  {
    hide Current, LastSet, PublishedAll, KeysBelow, Remembered, HasData, DataAt, FetchAnswered, RotationEvents;
    OldIsKnown(me, w);
    if step.scope in Scopes(w.index.issued) && !step.r.Refused? {
      var entry := w.index.issued[EntryAt(w.index.issued, step.scope)];
      var es := RotationSent(me, w, step, entry, w');
      assert Known(me, w, entry.scope, entry.v + 1, w.drawn);
      RotatedRecords(me, w, step, entry, w');
      hide Known, Wired, Listed, Synced, Next, Inv;
      if es != [] {
        GenerationHandsOut(me, w, es, w', entry.scope, entry.v + 1, w.drawn);
      }
    }
  }

  lemma RotatedRecords(me: Pub, w: World, step: Step, entry: IssuedEntry, w': World)
    requires step.Rotate? && Next(me, w, step, w') && step.scope in Scopes(w.index.issued)
    requires entry == w.index.issued[EntryAt(w.index.issued, step.scope)]
    ensures forall e | e in w'.index.issued ::
              e in w.index.issued || (e.scope == entry.scope && e.v == entry.v + 1 && e.key == w.drawn)
  {
    hide KeysBelow, PublishedAll, RotationEvents, FetchAnswered;
  }

  lemma StepHandsOut(me: Pub, w: World, step: Step, w': World)
    requires Inv(me, w) && Next(me, w, step, w')
    ensures HandsOutKnown(me, w, w')
  {
    hide Inv, HandsOutKnown;
    match step
    case Issue(_, _, _, _, _, _, _, _) => IssueHandsOut(me, w, step, w');
    case Add(_, _, _, _, _, _) => AddHandsOut(me, w, step, w');
    case Rotate(_, _, _, _, _, _) => RotateHandsOut(me, w, step, w');
    case Notify(p, scope) => NothingHandedOut(me, w, [NoticeEvent(me, p, scope)], w');
    case Refresh(_, _) => NothingHandedOut(me, w, [], w');
    case Dereference(_, _, _, _) => NothingHandedOut(me, w, [], w');
    case Elsewhere(e) => NothingHandedOut(me, w, [e], w');
  }

  lemma NothingHandedOut(me: Pub, w: World, es: seq<Event>, w': World)
    requires |es| <= 1 && forall e | e in es :: e.signed && (e.body.GiftWrap? ==> e.body.grant.publisher != me)
    requires w'.events == (if es == [] then w.events else Published(w.events, es[0])) && w'.index == w.index
    ensures HandsOutKnown(me, w, w')
  {
    OldIsKnown(me, w);
  }

  lemma BehindKeeps(me: Pub, seen: seq<Event>, w: World, step: Step, w': World)
    requires Inv(me, w) && Next(me, w, step, w') && Behind(me, seen, w)
    ensures Behind(me, seen, w')
  {
    hide Inv, Next, HasData, DataAt, TornScopes, Current;
    NextKeeps(me, w, step, w');
    StepHandsOut(me, w, step, w');
    assert w.drawn <= w'.drawn by { DrawsOn(me, w, step, w'); }
    forall scope, v, key | Known(me, w, scope, v, key)
      ensures Matches(me, seen, scope, v, key)
    {
    }
  }

  lemma DrawsOn(me: Pub, w: World, step: Step, w': World)
    requires Next(me, w, step, w')
    ensures w.drawn <= w'.drawn
  {
    hide IssueRun, AddRun, RotationRun, KeysBelow;
  }

  lemma {:induction false} RunLeavesBehind(me: Pub, ws: seq<World>, steps: seq<Step>, j: nat, n: nat)
    requires Run(me, ws, steps) && j <= n <= |steps|
    ensures Behind(me, ws[j].events, ws[n])
    decreases n
  {
    hide Inv, Behind, Next, TornScopes, BrokeOff;
    if j == n {
      RunKeeps(me, ws, steps, n);
      BehindNow(me, ws[n]);
    } else {
      RunLeavesBehind(me, ws, steps, j, n - 1);
      RunKeeps(me, ws, steps, n - 1);
      BehindKeeps(me, ws[j].events, ws[n - 1], steps[n - 1], ws[n]);
    }
  }

  // ---------------------------------------------------------------- survivors heal themselves

  /** A read through a grant of generation `v` is misled: the relays that answer are still at an earlier generation, or
      have no data set to show while a notice of the scope for this agent is found. */
  ghost predicate Misled(me: Pub, w: World, step: Step, p: Pub, scope: ScopeId, v: nat) {
    && step.Dereference? && step.agent == p && step.scope == scope
    && Usable(AgentOf(w, p), scope).Some? && Usable(AgentOf(w, p), scope).value.v == v
    && if HasData(step.seen, me, scope) then DataAt(step.seen, me, scope).v < v
       else step.heard && NoticeEvent(me, p, scope) in w.events
  }

  /** The record of the scope has reached the generation that is current. */
  ghost predicate RecordedCurrent(me: Pub, w: World, p: Pub, scope: ScopeId) {
    && scope in AgentOf(w, p).revoked && HasData(w.events, me, scope)
    && AgentOf(w, p).revoked[scope] == DataAt(w.events, me, scope).v
  }

  /** The read that may change the record of this agent and scope. */
  ghost predicate ReadsNow(w: World, step: Step, p: Pub, scope: ScopeId) {
    step.Dereference? && step.agent == p && step.scope == scope && Usable(AgentOf(w, p), scope).Some?
  }

  lemma RecordUnchanged(me: Pub, w: World, step: Step, w': World, p: Pub, scope: ScopeId)
    requires Next(me, w, step, w') && !ReadsNow(w, step, p, scope)
    ensures scope in AgentOf(w', p).revoked <==> scope in AgentOf(w, p).revoked
    ensures scope in AgentOf(w, p).revoked ==> AgentOf(w', p).revoked[scope] == AgentOf(w, p).revoked[scope]
  {
    hide KeysBelow, IssueRun, AddRun, RotationRun, Delivered, Cached, FetchScope, Foreign, Published;
  }

  /** Whatever the relays that answer have seen, a grant is read only at its own generation. */
  lemma ReadsWhatMatches(me: Pub, seen: seq<Event>, g: Grant)
    requires Matches(me, seen, g.scope, g.v, g.key)
    ensures FetchScope(seen, me, g.scope, g.v, g.key).Stale?
            <==> HasData(seen, me, g.scope) && DataAt(seen, me, g.scope).v != g.v
    ensures FetchScope(seen, me, g.scope, g.v, g.key).Read?
            <==> HasData(seen, me, g.scope) && DataAt(seen, me, g.scope).v == g.v
  {
  }

  lemma RecordByRead(me: Pub, w: World, step: Step, w': World, p: Pub, scope: ScopeId)
    requires Inv(me, w) && Next(me, w, step, w') && ReadsNow(w, step, p, scope) && Behind(me, step.seen, w)
    ensures w'.events == w.events && HasData(w.events, me, scope)
    ensures RecordedCurrent(me, w', p, scope) <==> Misled(me, w, step, p, scope, DataAt(w.events, me, scope).v)
    ensures !RecordedCurrent(me, w, p, scope)
  {
    hide Current, FetchScope, KeysBelow, HasData, DataAt, Listed;
    var g := Usable(AgentOf(w, p), scope).value;
    assert GrantEvent(p, g) in w.events && Fits(w.events, me, g);
    ReadsWhatMatches(me, step.seen, g);
  }

  /** One step: the record reaches the current generation by a misled read at that generation, and in no other way. */
  lemma RecordsMove(me: Pub, w: World, step: Step, w': World, p: Pub, scope: ScopeId)
    requires Inv(me, w) && Next(me, w, step, w') && Onward(me, w.events, w'.events)
    requires step.Dereference? ==> Behind(me, step.seen, w)
    requires HasData(w'.events, me, scope)
    ensures RecordedCurrent(me, w', p, scope) <==>
              || Misled(me, w, step, p, scope, DataAt(w'.events, me, scope).v)
              || (RecordedCurrent(me, w, p, scope) && DataAt(w.events, me, scope).v == DataAt(w'.events, me, scope).v)
  {
    hide HasData, DataAt, Next, Wired, Listed, KeysBelow, Usable;
    if ReadsNow(w, step, p, scope) {
      RecordByRead(me, w, step, w', p, scope);
    } else {
      RecordUnchanged(me, w, step, w', p, scope);
    }
  }

  /** Over a run: the record stands at the current generation exactly when some read at that generation was misled. */
  lemma {:induction false} RecordIsExact(me: Pub, ws: seq<World>, steps: seq<Step>, n: nat, p: Pub, scope: ScopeId)
    requires Run(me, ws, steps) && n <= |steps| && HasData(ws[n].events, me, scope)
    ensures RecordedCurrent(me, ws[n], p, scope) <==>
              exists i :: 0 <= i < n && Misled(me, ws[i], steps[i], p, scope, DataAt(ws[n].events, me, scope).v)
    decreases n
  {
    hide Inv, Next, HasData, DataAt, Misled, TornScopes, BrokeOff, Usable, AgentOf;
    if n == 0 {
      NoRecordYet(me, p, scope);
    } else {
      RunKeeps(me, ws, steps, n - 1);
      RunKeeps(me, ws, steps, n);
      NextKeeps(me, ws[n - 1], steps[n - 1], ws[n]);
      if steps[n - 1].Dereference? {
        var j :| 0 <= j <= n - 1 && steps[n - 1].seen == ws[j].events;
        RunLeavesBehind(me, ws, steps, j, n - 1);
      }
      RecordsMove(me, ws[n - 1], steps[n - 1], ws[n], p, scope);
      if HasData(ws[n - 1].events, me, scope) {
        RecordIsExact(me, ws, steps, n - 1, p, scope);
      }
      forall i | 0 <= i < n - 1 && Misled(me, ws[i], steps[i], p, scope, DataAt(ws[n].events, me, scope).v)
        ensures HasData(ws[n - 1].events, me, scope)
                && DataAt(ws[n - 1].events, me, scope).v == DataAt(ws[n].events, me, scope).v
      {
        RunKeeps(me, ws, steps, i);
        RunGoesOn(me, ws, steps, i, n - 1);
        MisledIsBelow(me, ws[i], steps[i], p, scope, DataAt(ws[n].events, me, scope).v);
      }
    }
  }

  lemma NoRecordYet(me: Pub, p: Pub, scope: ScopeId)
    ensures !RecordedCurrent(me, World([], EMPTY_INDEX, 0, map[]), p, scope)
  {
  }

  lemma MisledIsBelow(me: Pub, w: World, step: Step, p: Pub, scope: ScopeId, v: nat)
    requires Inv(me, w) && Misled(me, w, step, p, scope, v)
    ensures HasData(w.events, me, scope) && v <= DataAt(w.events, me, scope).v
  {
    hide HasData, DataAt;
    assert GrantEvent(p, Usable(AgentOf(w, p), scope).value) in w.events;
  }

  /** A run heals its survivors, and exactly when it may: an agent that has just refreshed in full holds an unrevoked
      grant that reads if and only if the entry lists it and no read of it at the current generation was misled. */
  lemma SurvivorsHeal(me: Pub, ws: seq<World>, steps: seq<Step>, n: nat, e: IssuedEntry, p: Pub, received: seq<Grant>)
    requires Run(me, ws, steps) && n < |steps| && steps[n] == Refresh(p, received)
             && Inbox(me, ws[n].events, p, received)
    requires e in ws[n].index.issued && forall i | 0 <= i < n && BrokeOff(ws[i], steps[i]) :: steps[i].scope != e.scope
    ensures HasData(ws[n].events, me, e.scope) && DataAt(ws[n].events, me, e.scope).v == e.v
    ensures AgentReads(me, ws[n + 1], p, e.scope) <==>
              p in e.grantees && !exists i :: 0 <= i < n && Misled(me, ws[i], steps[i], p, e.scope, e.v)
    ensures e.scope in AgentOf(ws[n + 1], p).revoked ==>
              && AgentOf(ws[n + 1], p).revoked[e.scope] <= e.v
              && (AgentOf(ws[n + 1], p).revoked[e.scope] == e.v <==>
                    exists i :: 0 <= i < n && Misled(me, ws[i], steps[i], p, e.scope, e.v))
  {
    hide Current, FetchScope, KeysBelow, HasData, DataAt, Latest, BrokeOff, Torn, Misled;
    assert Next(me, ws[n], steps[n], ws[n + 1]);
    RunKeeps(me, ws, steps, n);
    assert e.scope !in TornScopes(me, ws[n]);
    EntryIsTruth(me, ws[n], e, p, received);
    RecordIsExact(me, ws, steps, n, p, e.scope);
    LatestIs(received, e.scope);
    var a, b := AgentOf(ws[n], p), AgentOf(ws[n + 1], p);
    assert b == a.(cached := Cached(received));
    match Latest(received, e.scope)
    case Some(g) =>
      assert GrantEvent(p, g) in ws[n].events;
      StaleMeansRotated(me, ws[n].events, g);
    case None =>
  }

  /** The agent holds a cached grant of the scope that is not recorded as revoked and that opens the data set. */
  ghost predicate AgentReads(me: Pub, w: World, p: Pub, scope: ScopeId) {
    match Usable(AgentOf(w, p), scope)
    case Some(g) => FetchScope(w.events, me, scope, g.v, g.key).Read?
    case None => false
  }
}
