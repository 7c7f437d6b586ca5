/** lib/relay.mjs: a relay that stores events, replaces addressable ones and answers filters. */
module Relays {
  import opened Options
  import opened Sequences
  import opened Records

  const KIND_DATA_SET := 30440
  const KIND_GRANT_INDEX := 10440
  const KIND_WRAP := 1059

  /** What an event carries once its envelope is opened by somebody who can. */
  datatype Body =
    | SealedSet(v: nat, key: Key, data: Payload)
    | GiftWrap(to: Pub, grant: Grant)
    | Notice(from: Pub, to: Pub, scope: ScopeId)
    | Handback(from: Pub, to: Pub, scope: ScopeId, reason: Option<string>, destroyed_at: int)
    | SelfSealed(index: Index)

  datatype Event = Event(kind: nat, pubkey: Pub, d: string, created_at: int, signed: bool, body: Body)

  /** The identity under which NIP-01 replaces an event. */
  datatype Slot = Slot(kind: nat, pubkey: Pub, d: string)

  predicate Addressable(kind: nat) { 30000 <= kind < 40000 }

  predicate Replaceable(kind: nat) { kind == 0 || kind == 3 || 10000 <= kind < 20000 }

  /** The ranges of NIP-01, by their ten thousands. */
  lemma KindsAre(kind: nat)
    ensures Addressable(kind) <==> kind / 10000 == 3
    ensures Replaceable(kind) <==> kind == 0 || kind == 3 || kind / 10000 == 1
  {
  }

  function ReplaceKey(e: Event): Option<Slot> {
    if Addressable(e.kind) then Some(Slot(e.kind, e.pubkey, e.d))
    else if Replaceable(e.kind) then Some(Slot(e.kind, e.pubkey, ""))
    else None
  }

  /** The filter that drops what `slot` replaces. */
  function Outside(slot: Option<Slot>): Event -> bool {
    x => ReplaceKey(x) != slot
  }

  /** The stored events after `e` is published. */
  function Published(events: seq<Event>, e: Event): (r: seq<Event>)
    requires e.signed
    ensures e in r
    ensures forall x :: x in r <==> x == e || (x in events && (ReplaceKey(e).None? || ReplaceKey(x) != ReplaceKey(e)))
  {
    (if ReplaceKey(e).Some? then Filter(Outside(ReplaceKey(e)), events) else events) + [e]
  }

  /** The stored events after each of `es` is published in turn. */
  function PublishedAll(events: seq<Event>, es: seq<Event>): seq<Event>
    requires forall e | e in es :: e.signed
    decreases |es|
  {
    if es == [] then events
    else Published(PublishedAll(events, es[..|es| - 1]), es[|es| - 1])
  }

  /** At most one stored event per replacement identity. */
  ghost predicate OnePerSlot(events: seq<Event>) {
    forall i, j | 0 <= i < j < |events| ::
        ReplaceKey(events[i]).Some? ==> ReplaceKey(events[i]) != ReplaceKey(events[j])
  }

  /** Newest first; events of one second keep the order in which they were stored. */
  function Query(events: seq<Event>, matches: Event -> bool): seq<Event> {
    Sort((a: Event, b: Event) => a.created_at > b.created_at, Filter(matches, events))
  }

  /** A query answers with exactly the stored events that match, newest first, and those of one second as they were
      stored. */
  lemma QueryIs(events: seq<Event>, matches: Event -> bool, t: int)
    ensures multiset(Query(events, matches)) == multiset(Filter(matches, events))
    ensures forall i, j | 0 <= i < j < |Query(events, matches)| ::
              Query(events, matches)[i].created_at >= Query(events, matches)[j].created_at
    ensures var ofSecond := (e: Event) => e.created_at == t;
            Filter(ofSecond, Query(events, matches)) == Filter(ofSecond, Filter(matches, events))
  {
    var newer := (a: Event, b: Event) => a.created_at > b.created_at;
    var found := Filter(matches, events);
    SortOrders(newer, found);
    SortIsStable(newer, found, (e: Event) => e.created_at == t);
    assert forall i, j | 0 <= i < j < |Sort(newer, found)| :: !newer(Sort(newer, found)[j], Sort(newer, found)[i]);
  }

  /** The first answer to a query for one replacement identity. */
  function Current(events: seq<Event>, slot: Slot): Option<Event> {
    var found := Query(events, (e: Event) => ReplaceKey(e) == Some(slot));
    if found == [] then None else Some(found[0])
  }

  /** A query for one identity has at most one answer, and that answer is the stored event. */
  lemma CurrentIsStored(events: seq<Event>, slot: Slot)
    requires OnePerSlot(events)
    ensures forall e :: Current(events, slot) == Some(e) <==> e in events && ReplaceKey(e) == Some(slot)
    ensures Current(events, slot) == None <==> forall e | e in events :: ReplaceKey(e) != Some(slot)
  {
    var matches := (e: Event) => ReplaceKey(e) == Some(slot);
    var found := Query(events, matches);
    assert forall e :: e in found <==> e in events && ReplaceKey(e) == Some(slot);
    if found != [] {
      assert found[0] in found;
    }
  }

  lemma PublishKeepsSlots(events: seq<Event>, e: Event)
    requires OnePerSlot(events) && e.signed
    ensures OnePerSlot(Published(events, e))
  {
    var kept := if ReplaceKey(e).Some? then Filter(Outside(ReplaceKey(e)), events) else events;
    if ReplaceKey(e).Some? {
      FilterKeepsSlots(events, ReplaceKey(e));
    }
    forall i | 0 <= i < |kept| && ReplaceKey(kept[i]).Some?
      ensures ReplaceKey(kept[i]) != ReplaceKey(e)
    {
      assert kept[i] in kept;
    }
  }

  lemma {:induction false} FilterKeepsSlots(events: seq<Event>, gone: Option<Slot>)
    requires OnePerSlot(events)
    ensures OnePerSlot(Filter(Outside(gone), events))
  {
    if events != [] {
      FilterKeepsSlots(events[1..], gone);
      assert forall x | x in events[1..] && ReplaceKey(x).Some? :: ReplaceKey(x) != ReplaceKey(events[0]);
    }
  }

  /** Publishing makes an event the current one of its identity and touches no other identity. */
  lemma PublishReplaces(events: seq<Event>, e: Event, slot: Slot)
    requires OnePerSlot(events) && e.signed
    ensures OnePerSlot(Published(events, e))
    ensures Current(Published(events, e), slot) ==
            if ReplaceKey(e) == Some(slot) then Some(e) else Current(events, slot)
  {
    PublishKeepsSlots(events, e);
    CurrentIsStored(events, slot);
    CurrentIsStored(Published(events, e), slot);
    if ReplaceKey(e) != Some(slot) {
      match Current(events, slot)
      case None =>
      case Some(x) => assert x in Published(events, e);
    }
  }

  /** Publishes of other identities leave the current event of an identity alone. */
  lemma {:induction false} SlotStays(events: seq<Event>, es: seq<Event>, slot: Slot)
    requires OnePerSlot(events)
    requires forall e | e in es :: e.signed && ReplaceKey(e) != Some(slot)
    ensures OnePerSlot(PublishedAll(events, es)) && Current(PublishedAll(events, es), slot) == Current(events, slot)
    decreases |es|
  {
    hide Current, Published, ReplaceKey;
    if es != [] {
      SlotStays(events, es[..|es| - 1], slot);
      PublishReplaces(PublishedAll(events, es[..|es| - 1]), es[|es| - 1], slot);
    }
  }

  /** An event without a replacement identity stays. */
  lemma {:induction false} WrapsStay(events: seq<Event>, es: seq<Event>, e: Event)
    requires ReplaceKey(e).None? && forall x | x in es :: x.signed
    ensures e in events ==> e in PublishedAll(events, es)
    decreases |es|
  {
    if es != [] {
      WrapsStay(events, es[..|es| - 1], e);
    }
  }

  // ---------------------------------------------------------------- why timestamps must increase

  /** A conforming relay of NIP-01 refuses an event unless it is newer than the one it would replace. */
  function Accepted(events: seq<Event>, e: Event): seq<Event>
    requires e.signed
  {
    if ReplaceKey(e).Some? && (exists x ::
        x in events && ReplaceKey(x) == ReplaceKey(e) && x.created_at >= e.created_at)
    then events else Published(events, e)
  }

  function AcceptedAll(events: seq<Event>, es: seq<Event>): seq<Event>
    requires forall e | e in es :: e.signed
    decreases |es|
  {
    if es == [] then events
    else Accepted(AcceptedAll(events, es[..|es| - 1]), es[|es| - 1])
  }

  /** Two events of one replacement identity never share a timestamp, and the later one is newer. */
  ghost predicate Stamped(es: seq<Event>) {
    forall i, j | 0 <= i < j < |es| && ReplaceKey(es[i]).Some? && ReplaceKey(es[i]) == ReplaceKey(es[j]) ::
      es[i].created_at < es[j].created_at
  }

  lemma {:induction false} StoredWasPublished(es: seq<Event>)
    requires forall e | e in es :: e.signed
    ensures forall x | x in PublishedAll([], es) :: x in es
    decreases |es|
  {
    if es != [] {
      var earlier, e := es[..|es| - 1], es[|es| - 1];
      StoredWasPublished(earlier);
      assert forall x | x in earlier :: x in es;
    }
  }

  lemma NewerIsAccepted(events: seq<Event>, e: Event)
    requires e.signed && forall x | x in events && ReplaceKey(e).Some? && ReplaceKey(x) == ReplaceKey(e) ::
             x.created_at < e.created_at
    ensures Accepted(events, e) == Published(events, e)
  {
  }

  /** With increasing timestamps, replacing by order of arrival and keeping the newest are the same relay. */
  lemma {:induction false} LastWinsIsNewestWins(es: seq<Event>)
    requires (forall e | e in es :: e.signed) && Stamped(es)
    ensures AcceptedAll([], es) == PublishedAll([], es)
    decreases |es|
  {
    hide Published, Accepted, ReplaceKey;
    if es != [] {
      var n := |es| - 1;
      var earlier, e := es[..n], es[n];
      assert forall x | x in earlier :: x in es;
      assert Stamped(earlier);
      LastWinsIsNewestWins(earlier);
      StoredWasPublished(earlier);
      forall x | x in PublishedAll([], earlier) && ReplaceKey(e).Some? && ReplaceKey(x) == ReplaceKey(e)
        ensures x.created_at < e.created_at
      {
        var i :| 0 <= i < n && es[i] == x;
      }
      NewerIsAccepted(PublishedAll([], earlier), e);
    }
  }

  /** Without them they differ: of two events published in one second a conforming relay keeps the first. */
  lemma TieLosesTheUpdate(a: Event, b: Event)
    requires a.signed && b.signed && a != b
    requires ReplaceKey(a).Some? && ReplaceKey(a) == ReplaceKey(b) && a.created_at == b.created_at
    ensures AcceptedAll([], [a, b]) == [a] && PublishedAll([], [a, b]) == [b]
  {
    var both := [a, b];
    assert both[..|both| - 1] == [a] && [a][..|[a]| - 1] == [];
    assert Published([], a) == [a];
    assert AcceptedAll([], [a]) == Accepted([], a) == [a];
    assert a in [a] && Accepted([a], b) == [a];
    assert AcceptedAll([], both) == Accepted(AcceptedAll([], [a]), b);
    assert Filter(Outside(ReplaceKey(b)), [a]) == [];
    assert PublishedAll([], both) == Published(PublishedAll([], [a]), b);
  }

  /** lib/nipxx.mjs, `now`: the clock of everything that is published. */
  class Clock {
    var lastTs: int

    constructor ()
      ensures lastTs == 0
    {
      lastTs := 0;
    }

    /** The wall clock, pushed forward when a publish already used this second. */
    method Now(wall: int) returns (ts: int)
      modifies this
      ensures ts == lastTs && ts > old(lastTs)
      ensures ts == wall || ts == old(lastTs) + 1
      ensures ts >= wall
    {
      lastTs := if wall > lastTs + 1 then wall else lastTs + 1;
      ts := lastTs;
    }
  }

  // ---------------------------------------------------------------- the wire

  function DataSlot(pubkey: Pub, d: ScopeId): Slot { Slot(KIND_DATA_SET, pubkey, d) }

  function IndexSlot(pubkey: Pub): Slot { Slot(KIND_GRANT_INDEX, pubkey, "") }

  /** The signed event of `publishScope`. */
  function SetEvent(pubkey: Pub, scope: ScopeId, ts: int, v: nat, key: Key, data: Payload): Event {
    Event(KIND_DATA_SET, pubkey, scope, ts, true, SealedSet(v, key, data))
  }

  /** A gift wrap: its author is ephemeral and its timestamp is fuzzed, so both are left blank. */
  function GrantEvent(to: Pub, grant: Grant): Event {
    Event(KIND_WRAP, "", "", 0, true, GiftWrap(to, grant))
  }

  /** The courtesy notice of a revocation; its sealed sender is the publisher of the scope. */
  function NoticeEvent(from: Pub, to: Pub, scope: ScopeId): Event {
    Event(KIND_WRAP, "", "", 0, true, Notice(from, to, scope))
  }

  /** An agent's notice that it gave a scope back. */
  function HandbackEvent(from: Pub, to: Pub, scope: ScopeId, reason: Option<string>, destroyed_at: int): Event {
    Event(KIND_WRAP, "", "", 0, true, Handback(from, to, scope, reason, destroyed_at))
  }

  function IndexEvent(pubkey: Pub, ts: int, index: Index): Event {
    Event(KIND_GRANT_INDEX, pubkey, "", ts, true, SelfSealed(index))
  }

  /** What the events say, and that data sets and indices replace their predecessors while wraps pile up. */
  lemma EventsAre(from: Pub, to: Pub, scope: ScopeId, ts: int, v: nat, key: Key, data: Payload, grant: Grant,
                  reason: Option<string>, destroyed_at: int, index: Index)
    ensures var e := SetEvent(from, scope, ts, v, key, data);
            && e.signed && e.created_at == ts && ReplaceKey(e) == Some(Slot(30440, from, scope))
            && e.body.SealedSet? && e.body.v == v && e.body.key == key && e.body.data == data
    ensures var e := GrantEvent(to, grant);
            e.signed && e.kind == 1059 && ReplaceKey(e) == None && e.body.GiftWrap? && e.body.to == to
            && e.body.grant == grant
    ensures var e := NoticeEvent(from, to, scope);
            e.signed && e.kind == 1059 && ReplaceKey(e) == None && e.body.Notice? && e.body.from == from
            && e.body.to == to && e.body.scope == scope
    ensures var e := HandbackEvent(from, to, scope, reason, destroyed_at);
            e.signed && e.kind == 1059 && ReplaceKey(e) == None && e.body.Handback? && e.body.from == from
            && e.body.to == to && e.body.scope == scope && e.body.reason == reason
            && e.body.destroyed_at == destroyed_at
    ensures var e := IndexEvent(from, ts, index);
            && e.signed && e.created_at == ts && ReplaceKey(e) == Some(Slot(10440, from, ""))
            && e.body.SelfSealed? && e.body.index == index
  {
  }

  /** `loadGrantIndex`: the stored index, or an empty one. */
  function LoadIndex(events: seq<Event>, pubkey: Pub): Index {
    match Current(events, IndexSlot(pubkey))
    case Some(Event(_, _, _, _, _, SelfSealed(index))) => index
    case _ => EMPTY_INDEX
  }

  datatype Fetched = Missing | Stale(v: nat) | Read(v: nat, data: Payload)

  /** `fetchScope`: dereference a generation of a scope with the key that was handed out for it. */
  function FetchScope(events: seq<Event>, publisher: Pub, scope: ScopeId, v: nat, key: Key): Fetched {
    match Current(events, DataSlot(publisher, scope))
    case Some(Event(_, _, _, _, _, SealedSet(generation, sealedUnder, data))) =>
      if generation > v then Stale(generation)
      else if key == sealedUnder then Read(generation, data)
      else Stale(generation)
    case _ => Missing
  }

  /** A query that no relay answers in time finds nothing: the index reads as an empty one. */
  function LoadAnswered(events: seq<Event>, pubkey: Pub, answered: bool): Index {
    if answered then LoadIndex(events, pubkey) else EMPTY_INDEX
  }

  /** Likewise a data set that no relay serves in time reads as missing. */
  function FetchAnswered(events: seq<Event>, publisher: Pub, scope: ScopeId, v: nat, key: Key,
                         answered: bool): Fetched {
    if answered then FetchScope(events, publisher, scope, v, key) else Missing
  }

  /** Traffic of others: it neither replaces the events of `me` nor speaks in the name of `me`. */
  predicate Foreign(me: Pub, e: Event) {
    && e.signed
    && (ReplaceKey(e).Some? ==> e.pubkey != me)
    && (e.body.GiftWrap? ==> e.body.grant.publisher != me)
    && (e.body.Notice? ==> e.body.from != me)
  }

  /** There is a data set at (pubkey, scope). */
  ghost predicate HasData(events: seq<Event>, pubkey: Pub, scope: ScopeId) {
    match Current(events, DataSlot(pubkey, scope))
    case Some(e) => e.body.SealedSet?
    case None => false
  }

  ghost function DataAt(events: seq<Event>, pubkey: Pub, scope: ScopeId): Body
    requires HasData(events, pubkey, scope)
    ensures DataAt(events, pubkey, scope).SealedSet?
  {
    Current(events, DataSlot(pubkey, scope)).value.body
  }

  /** Keys are numbered as they are drawn: `drawn` is a key that no data set and no grant uses yet. */
  /** A dereference, against the data set: a later generation or another key makes it stale. */
  lemma FetchIs(events: seq<Event>, publisher: Pub, scope: ScopeId, v: nat, key: Key)
    ensures var fetched := FetchScope(events, publisher, scope, v, key);
            && (fetched.Missing? <==> !HasData(events, publisher, scope))
            && (fetched.Stale? ==> fetched.v == DataAt(events, publisher, scope).v)
            && (fetched.Read? <==>
                HasData(events, publisher, scope)
                && fetched == Read(DataAt(events, publisher, scope).v, DataAt(events, publisher, scope).data)
                && DataAt(events, publisher, scope).v <= v && DataAt(events, publisher, scope).key == key)
  {
  }

  ghost predicate KeysBelow(events: seq<Event>, drawn: nat) {
    && (forall e | e in events && e.body.SealedSet? :: e.body.key < drawn)
    && (forall e | e in events && e.body.GiftWrap? :: e.body.grant.key < drawn)
  }

  lemma PublishKeepsKeys(events: seq<Event>, e: Event, drawn: nat, drawn': nat)
    requires KeysBelow(events, drawn) && drawn <= drawn' && e.signed
    requires e.body.SealedSet? ==> e.body.key < drawn'
    requires e.body.GiftWrap? ==> e.body.grant.key < drawn'
    ensures KeysBelow(Published(events, e), drawn')
  {
  }

  /** The grants delivered by `before` and by `after` are the same. */
  ghost predicate SameGrants(before: seq<Event>, after: seq<Event>) {
    forall to, grant :: GrantEvent(to, grant) in before <==> GrantEvent(to, grant) in after
  }

  /** A relay as its user sees it: `gets(i)` is whether the network lets the i-th publish through. */
  class Relay {
    var events: seq<Event>
    var tries: nat
    const gets: nat -> bool

    constructor (gets: nat -> bool)
      ensures events == [] && tries == 0 && this.gets == gets
    {
      events, tries, this.gets := [], 0, gets;
    }

    /** The last publish did not get through. */
    predicate LastLost()
      reads this
    {
      tries > 0 && !gets(tries - 1)
    }

    /** Store `e`, replacing its predecessor; a badly signed event is refused, and a lost one never arrives. */
    method Publish(e: Event) returns (ok: bool)
      modifies this
      ensures tries == old(tries) + 1 && ok == (e.signed && gets(old(tries)))
      ensures e.signed && !ok ==> LastLost()
      ensures events == if ok then Published(old(events), e) else old(events)
    {
      tries := tries + 1;
      if !e.signed || !gets(tries - 1) {
        return false;
      }
      var slot := ReplaceKey(e);
      if slot.Some? {
        events := Filter(Outside(slot), events);
      }
      events := events + [e];
      return true;
    }
  }
}
