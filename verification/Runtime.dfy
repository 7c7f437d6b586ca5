/** mcp/src/app.ts: what the agent runtime does with a grant, and how it notices that the grant is dead. */
module Runtimes {
  import opened Options
  import opened Records
  import opened Entries
  import opened Relays
  import opened GrantTerms
  import opened GrantStores
  import opened ScopeCaches
  import opened Cascades
  import opened Lineage

  /** What the queries of a read meet: what the relays that answer the one for the data set have stored, and whether
      those for the notice and for this identity's own index are answered. */
  datatype Heard = Heard(data: seq<Event>, notice: bool, index: bool)

  datatype Reply =
    | NoGrant
    | RevokedReply(notice: Option<string>)
    | RelinquishedReply(destroyed_at: int)
    | ExpiredReply(expires_at: Option<int>)
    | Unavailable
    | Data(v: nat, data: Payload, fetched_at: int, terms: Option<Terms>, noPersist: bool)

  /** The generation of the data set that a query finds, 0 when it finds none: read off the tag, without decrypting. */
  function EventGeneration(events: seq<Event>, publisher: Pub, scope: ScopeId): nat {
    match Current(events, DataSlot(publisher, scope))
    case Some(Event(_, _, _, _, _, SealedSet(v, _, _))) => v
    case _ => 0
  }

  /** It is that of the data set, if there is one. */
  lemma EventGenerationIs(events: seq<Event>, publisher: Pub, scope: ScopeId)
    ensures EventGeneration(events, publisher, scope) ==
            if HasData(events, publisher, scope) then DataAt(events, publisher, scope).v else 0
  {
  }

  /** The notice that a lookup finds; `content` is what such a notice says. Neither its age nor its generation
      matters. */
  function Noticed(events: seq<Event>, me: Pub, g: Grant, answered: bool,
                   content: Option<string>): Option<Option<string>> {
    if answered && NoticeEvent(g.publisher, me, g.scope) in events then Some(content) else None
  }

  /** A cascade leaves the index with unique scopes. */
  lemma CascadeKeepsUnique(before: seq<Event>, after: seq<Event>, me: Pub, revoked: ParentRef, drawn: nat, ended: bool)
    requires CascadeRun(before, after, me, revoked, drawn, ended) && UniqueScopes(LoadIndex(before, me).issued)
    ensures OnePerSlot(after) && UniqueScopes(LoadIndex(after, me).issued)
  {
    var index := LoadIndex(before, me);
    WithoutUnique(index.issued, DescendantScopes(Loaded(index.children), me, revoked));
  }

  /** A wrap of another kind touches neither slots nor index nor keys. */
  lemma WrapKeepsReady(events: seq<Event>, me: Pub, drawn: nat, e: Event)
    requires OnePerSlot(events) && UniqueScopes(LoadIndex(events, me).issued) && KeysBelow(events, drawn)
    requires e.signed && ReplaceKey(e).None? && !e.body.GiftWrap? && !e.body.SealedSet?
    ensures OnePerSlot(Published(events, e)) && KeysBelow(Published(events, e), drawn)
    ensures LoadIndex(Published(events, e), me) == LoadIndex(events, me)
  {
    PublishReplaces(events, e, IndexSlot(me));
    PublishKeepsKeys(events, e, drawn, drawn);
  }

  /** Cached grants and cached payloads are different objects. */
  lemma KeptApart(store: GrantStore, cache: ScopeCache)
    ensures forall r: object | r in cache.Readings() :: r !in store.Footprint() && r != store
    ensures forall o | o in store.Footprint() :: o !in (set r | r in cache.Readings() :: r as object) && o != cache
    ensures cache as object != store
  {
  }

  class Runtime {
    const relay: Relay
    const me: Pub
    const store: GrantStore
    const cache: ScopeCache
    /** The key that the contact in a grant's terms decodes to, if there is one and it does. */
    const contact: Grant -> Option<Pub>
    var drawn: nat

    constructor (relay: Relay, me: Pub, store: GrantStore, cache: ScopeCache, contact: Grant -> Option<Pub>, drawn: nat)
      requires store.Valid() && cache.Valid() && Ready(relay, me, drawn)
      ensures Valid() && this.relay == relay && this.me == me && this.store == store && this.cache == cache
              && this.contact == contact
    {
      this.relay, this.me, this.store, this.cache, this.contact, this.drawn := relay, me, store, cache, contact, drawn;
    }

    /** What a cascade asks of the relay and of this identity's index. */
    static ghost predicate Ready(relay: Relay, me: Pub, drawn: nat)
      reads relay
    {
      OnePerSlot(relay.events) && UniqueScopes(LoadIndex(relay.events, me).issued) && KeysBelow(relay.events, drawn)
    }

    ghost predicate Valid()
      reads this, relay, store, store.Footprint(), cache, cache.Readings()
    {
      store.Valid() && cache.Valid() && Ready(relay, me, drawn)
    }

    /** What is remembered once a grant is recorded as revoked. */
    static ghost function Sealing(a: Lifecycle.Agent, g: Grant): Lifecycle.Agent {
      a.(revoked := Lifecycle.MarkRevoked(a.revoked, g.scope, g.v))
    }

    /** The local half: record the revocation, destroy the key and the plaintext. */
    method Destroy(g: Held, found: Option<string>, now: int) returns (record: Mark<Detection>)
      requires store.Valid() && cache.Valid()
      modifies store, store.Footprint(), cache, cache.Readings()
      ensures store.Valid() && cache.Valid() && store.cache == old(store.cache)
              && store.relinquishments == old(store.relinquishments)
      ensures record == Recorded(old(store.revocations), KeyOf(g.grant), Mark(g.grant.v, Detection(found, now)))
      ensures store.revocations == old(store.revocations)[KeyOf(g.grant) := record]
      ensures cache.Contents() == old(cache.Contents()) - {KeyOf(g.grant)}
      ensures store.View(g.grant.publisher) == Sealing(old(store.View(g.grant.publisher)), g.grant)
    {
      hide GrantStore.InForce, GrantStore.Apart, GrantStore.View, NeverLower;
      KeptApart(store, cache);
      record := store.MarkRevoked(g.grant.publisher, g.grant.scope, g.grant.v, found, now);
      cache.Zeroize(KeyOf(g.grant));
    }

    /** Seal a detected revocation: record it, destroy key and plaintext, sever what was derived from the grant. */
    method DetectRevocation(g: Held, found: Option<string>, now: int, loaded: bool)
      returns (record: Mark<Detection>, ghost ended: bool)
      requires Valid()
      modifies this, relay, store, store.Footprint(), cache, cache.Readings()
      ensures Valid() && store.cache == old(store.cache) && store.relinquishments == old(store.relinquishments)
      ensures record == Recorded(old(store.revocations), KeyOf(g.grant), Mark(g.grant.v, Detection(found, now)))
      ensures store.revocations == old(store.revocations)[KeyOf(g.grant) := record]
      ensures cache.Contents() == old(cache.Contents()) - {KeyOf(g.grant)}
      ensures if loaded
              then CascadeRun(old(relay.events), relay.events, me,
                              ParentRef(g.grant.publisher, g.grant.scope, g.grant.v), old(drawn), ended)
              else relay.events == old(relay.events)
      ensures ended || relay.LastLost()
      ensures store.View(g.grant.publisher) == Sealing(old(store.View(g.grant.publisher)), g.grant)
    {
      hide CascadeRun, Ready, Sealing, GrantStore.InForce, GrantStore.Apart, GrantStore.View, GrantStore.Grants,
           Recorded;
      record := Destroy(g, found, now);
      assert relay.events == old(relay.events) && drawn == old(drawn) && Ready(relay, me, drawn);
      ended := Sever(ParentRef(g.grant.publisher, g.grant.scope, g.grant.v), loaded);
    }

    /** The cascade below a dead grant; that it breaks off, or finds no index, does not undo the revocation. */
    method Sever(revoked: ParentRef, loaded: bool) returns (ghost ended: bool)
      requires Ready(relay, me, drawn)
      modifies this`drawn, relay
      ensures Ready(relay, me, drawn) && (ended || relay.LastLost())
      ensures if loaded then CascadeRun(old(relay.events), relay.events, me, revoked, old(drawn), ended)
              else relay.events == old(relay.events)
    {
      hide CascadeRun, LoadIndex, KeysBelow, UniqueScopes, OnePerSlot, NothingDescends, Loaded;
      ghost var before, drawn0 := relay.events, drawn;
      var ok, cascaded, next := CascadeDerivedRevocation(relay, me, revoked, drawn, loaded);
      drawn := next;
      ended := ok;
      if loaded {
        CascadeKeepsUnique(before, relay.events, me, revoked, drawn0, ok);
      }
    }

    /** Give a grant up: key and plaintext are destroyed before anybody is told, and whether or not anybody is told. */
    method RelinquishGrant(g: Held, now: int, reason: Option<string>, canSign: bool) returns (sent: bool)
      requires Valid()
      modifies relay, store, store.Footprint(), cache, cache.Readings()
      ensures Valid() && store.cache == old(store.cache) && store.revocations == old(store.revocations)
      ensures store.relinquishments == old(store.relinquishments)[KeyOf(g.grant) :=
                Recorded(old(store.relinquishments), KeyOf(g.grant),
                         Mark(g.grant.v, Destruction(now, NonEmpty(reason))))]
      ensures cache.Contents() == old(cache.Contents()) - {KeyOf(g.grant)} && cache.Readings() <= old(cache.Readings())
      ensures sent ==> canSign
      ensures canSign && !sent ==> relay.LastLost()
      ensures if sent then HandedBack(old(relay.events), relay.events, g.grant, reason, now)
              else relay.events == old(relay.events)
    {
      hide Ready, HandedBack, GrantStore.InForce, GrantStore.Apart, GrantStore.View, GrantStore.Grants;
      GiveAway(g, now, reason);
      sent := false;
      if canSign {
        sent := SendNotice(g, now, reason);
      }
    }

    /** The local half of giving up. */
    method GiveAway(g: Held, now: int, reason: Option<string>)
      requires store.Valid() && cache.Valid()
      modifies store, store.Footprint(), cache, cache.Readings()
      ensures store.Valid() && cache.Valid() && store.cache == old(store.cache)
              && store.revocations == old(store.revocations)
      ensures store.relinquishments == old(store.relinquishments)[KeyOf(g.grant) :=
                Recorded(old(store.relinquishments), KeyOf(g.grant),
                         Mark(g.grant.v, Destruction(now, NonEmpty(reason))))]
      ensures cache.Contents() == old(cache.Contents()) - {KeyOf(g.grant)} && cache.Readings() <= old(cache.Readings())
    {
      hide GrantStore.InForce, GrantStore.Apart, GrantStore.View;
      KeptApart(store, cache);
      cache.Zeroize(KeyOf(g.grant));
      var record := store.MarkRelinquished(g.grant.publisher, g.grant.scope, g.grant.v, now, reason);
    }

    /** The wrap that tells the contact, or else the publisher. */
    function Handback(g: Grant, destroyed_at: int, reason: Option<string>): Event {
      HandbackEvent(me, if contact(g).Some? then contact(g).value else g.publisher, g.scope, reason, destroyed_at)
    }

    /** One more wrap on the relay: this identity tells the contact, or else the publisher, which scope it gave back,
        when and why. */
    ghost predicate HandedBack(before: seq<Event>, after: seq<Event>, g: Grant, reason: Option<string>,
                               destroyed_at: int)
    {
      exists e: Event ::
        && e.signed && ReplaceKey(e).None? && after == Published(before, e)
        && e.body.Handback? && e.body.from == me && e.body.scope == g.scope && e.body.reason == reason
        && e.body.destroyed_at == destroyed_at
        && (contact(g).Some? ==> e.body.to == contact(g).value) && (contact(g).None? ==> e.body.to == g.publisher)
    }

    /** The notice goes out only when the key is recorded as destroyed and the plaintext is gone. */
    method SendNotice(g: Held, destroyed_at: int, reason: Option<string>) returns (sent: bool)
      requires Ready(relay, me, drawn) && cache.Valid()
      requires KeyOf(g.grant) in store.relinquishments && g.grant.v <= store.relinquishments[KeyOf(g.grant)].generation
      requires KeyOf(g.grant) !in cache.Contents()
      modifies relay
      ensures Ready(relay, me, drawn) && (sent || relay.LastLost())
      ensures if sent then HandedBack(old(relay.events), relay.events, g.grant, reason, destroyed_at)
              else relay.events == old(relay.events)
    {
      hide LoadIndex, KeysBelow, UniqueScopes, OnePerSlot, Published;
      WrapKeepsReady(relay.events, me, drawn, Handback(g.grant, destroyed_at, reason));
      sent := relay.Publish(Handback(g.grant, destroyed_at, reason));
    }

    /** The status of a delivered grant, as the records have it. */
    ghost function StatusIn(g: Grant, revs: Revocations, rels: Relinquishments, now: int): GrantStatus {
      StatusOf(HeldGrant(g, store.expiration(g), Ruling(revs, g).Some?, Ruling(rels, g).Some?), now)
    }

    /** The cache's answer to a read through `g`. */
    ghost function Asked(shelf: Shelf, g: Grant, maxAge: Option<int>, asked: int, later: int, heard: Heard)
      : (Shelf, Answer)
    {
      ReadStep(shelf, cache.ttl, KeyOf(g), maxAge, asked, later,
               FetchScope(heard.data, g.publisher, g.scope, g.v, g.key))
    }

    /** The answer of the cache calls for a seal. */
    ghost predicate Damning(answer: Answer, noticed: bool) {
      answer.Failed? && (answer.status.Stale? || (answer.status.Missing? && noticed))
    }

    /** The read seals its grant: a relinquished one whose scope was rotated since, or an active one on a damning
        answer. */
    ghost predicate Seals(g: Grant, status: GrantStatus, events: seq<Event>, answer: Answer, heard: Heard) {
      || (status == GrantStatus.Relinquished
          && HasData(heard.data, g.publisher, g.scope) && DataAt(heard.data, g.publisher, g.scope).v > g.v)
      || (status == Active && Damning(answer, Noticed(events, me, g, heard.notice, None).Some?))
    }

    /** What a notice that was found says. */
    ghost function Told(events: seq<Event>, g: Grant, heard: Heard, content: Option<string>): Option<string> {
      if Noticed(events, me, g, heard.notice, None).Some? then content else None
    }

    /** The record that a seal leaves. */
    ghost function Seal(events: seq<Event>, g: Grant, heard: Heard, content: Option<string>,
                        now: int): Mark<Detection> {
      Mark(g.v, Detection(Told(events, g, heard, content), now))
    }

    /** A seal severs whatever was derived from the grant, if this identity's index is there to be read. */
    ghost predicate Severs(before: seq<Event>, after: seq<Event>, g: Grant, drawn: nat, loaded: bool, lost: bool) {
      if loaded
      then exists ended: bool :: CascadeRun(before, after, me, ParentRef(g.publisher, g.scope, g.v), drawn, ended)
             && (ended || lost)
      else after == before
    }

    /** The reply that a status and, for an active grant, the cache's answer call for. */
    ghost predicate Fitting(g: Grant, revs: Revocations, rels: Relinquishments, now: int, events: seq<Event>,
                            answer: Answer, heard: Heard, content: Option<string>, reply: Reply) {
      var status := StatusIn(g, revs, rels, now);
      if Seals(g, status, events, answer, heard) then reply == RevokedReply(Told(events, g, heard, content))
      else
        match status
        case RevokedDetected => Ruling(revs, g).Some? && reply == RevokedReply(Ruling(revs, g).value.detail.notice)
        case Relinquished =>
          Ruling(rels, g).Some? && reply == RelinquishedReply(Ruling(rels, g).value.detail.destroyed_at)
        case Expired =>
          reply == ExpiredReply(if g.terms.Some? && g.terms.value.expires_at.Some? then g.terms.value.expires_at
                                else store.expiration(g))
        case Active =>
          match answer
          case Served(v, data, fetchedAt) =>
            reply == Data(v, data, fetchedAt, g.terms, g.terms.Some? && g.terms.value.no_persist == Some(true))
          case Failed(_) => reply == Unavailable
    }

    /** What a read leaves in the cache: a seal drops the entry, and only an active grant asks for one. */
    ghost function Left(shelf: Shelf, g: Grant, status: GrantStatus, sealed: bool, asked: Shelf): Shelf {
      if sealed then shelf - {KeyOf(g)} else if status == Active then asked else shelf
    }

    /** `nvoy_scope_read` once a grant was found: `content` is what a notice would say, `now` the clock in seconds,
        `asked` and `later` the cache's clock in milliseconds. */
    method ReadThrough(g: Held, maxAge: Option<int>, content: Option<string>, now: int, asked: int, later: int,
                       heard: Heard)
      returns (reply: Reply)
      requires Valid() && asked <= later && store.cache.Some? && g in store.cache.value
      modifies this, relay, store, store.Footprint(), cache, cache.Readings()
      ensures Valid() && store.cache == old(store.cache) && store.relinquishments == old(store.relinquishments)
      ensures var answer := Asked(old(cache.Contents()), g.grant, maxAge, asked, later, heard);
              Fitting(g.grant, old(store.revocations), store.relinquishments, now, old(relay.events), answer.1, heard,
                      content, reply)
      ensures var answer := Asked(old(cache.Contents()), g.grant, maxAge, asked, later, heard);
              var status := StatusIn(g.grant, old(store.revocations), store.relinquishments, now);
              var sealed := Seals(g.grant, status, old(relay.events), answer.1, heard);
              && cache.Contents() == Left(old(cache.Contents()), g.grant, status, sealed, answer.0)
              && (if sealed then
                    && Severs(old(relay.events), relay.events, g.grant, old(drawn), heard.index, relay.LastLost())
                    && store.revocations == old(store.revocations)[KeyOf(g.grant) :=
                         Seal(old(relay.events), g.grant, heard, content, now)]
                  else relay.events == old(relay.events) && store.revocations == old(store.revocations))
              && store.View(g.grant.publisher) ==
                 if sealed then Sealing(old(store.View(g.grant.publisher)), g.grant)
                 else old(store.View(g.grant.publisher))
    {
      hide CascadeRun, Ready, FetchScope, EventGeneration, HasData, DataAt, GrantStore.Apart, GrantStore.View,
           ReadStep, Hit, Sealing, Severs, StatusOf, Asked, Recorded, Ruling, GrantStore.InForce, GrantStore.Grants;
      FailsAsFetched(cache.Contents(), g.grant, maxAge, asked, later, heard);
      StatusRuled(g, now);
      EventGenerationIs(heard.data, g.grant.publisher, g.grant.scope);
      var status := store.StatusAt(g, now);
      if status == RevokedDetected {
        return RevokedReply(g.revoked.value.detail.notice);
      }
      var found := Noticed(relay.events, me, g.grant, heard.notice, content);
      if status == GrantStatus.Relinquished {
        if EventGeneration(heard.data, g.grant.publisher, g.grant.scope) > g.grant.v {
          reply := Sealed(g, found, now, heard.index);
          return;
        }
        return RelinquishedReply(g.relinquished.value.detail.destroyed_at);
      }
      if status == Expired {
        return ExpiredReply(Deadline(HeldGrant(g.grant, store.expiration(g.grant), false, false)));
      }
      reply := ReadActive(g, maxAge, found, now, asked, later, heard);
    }

    /** The read through an active grant: what the cache answers, or the seal. */
    method ReadActive(g: Held, maxAge: Option<int>, found: Option<Option<string>>, now: int, asked: int, later: int,
                      heard: Heard)
      returns (reply: Reply)
      requires Valid() && asked <= later && store.cache.Some? && g in store.cache.value
               && store.StatusAt(g, now) == Active
      modifies this, relay, store, store.Footprint(), cache, cache.Readings()
      ensures Valid() && store.cache == old(store.cache) && store.relinquishments == old(store.relinquishments)
      ensures Damning(Asked(old(cache.Contents()), g.grant, maxAge, asked, later, heard).1, found.Some?) ==>
                && reply == RevokedReply(if found.Some? then found.value else None)
                && store.revocations == old(store.revocations)[KeyOf(g.grant) :=
                     Mark(g.grant.v, Detection(if found.Some? then found.value else None, now))]
                && cache.Contents() == old(cache.Contents()) - {KeyOf(g.grant)}
                && store.View(g.grant.publisher) == Sealing(old(store.View(g.grant.publisher)), g.grant)
                && Severs(old(relay.events), relay.events, g.grant, old(drawn), heard.index, relay.LastLost())
      ensures !Damning(Asked(old(cache.Contents()), g.grant, maxAge, asked, later, heard).1, found.Some?) ==>
                && reply == (match Asked(old(cache.Contents()), g.grant, maxAge, asked, later, heard).1
                             case Served(v, data, fetchedAt) =>
                               Data(v, data, fetchedAt, g.grant.terms,
                                    g.grant.terms.Some? && g.grant.terms.value.no_persist == Some(true))
                             case Failed(_) => Unavailable)
                && store.revocations == old(store.revocations) && relay.events == old(relay.events)
                && store.View(g.grant.publisher) == old(store.View(g.grant.publisher))
                && cache.Contents() == Asked(old(cache.Contents()), g.grant, maxAge, asked, later, heard).0
    {
      hide CascadeRun, Ready, FetchScope, GrantStore.Apart, GrantStore.View, ReadStep, Sealing, Severs;
      FailsAsFetched(cache.Contents(), g.grant, maxAge, asked, later, heard);
      var fetched, reading := cache.ReadScope(KeyOf(g.grant), g.grant.v, g.grant.key, maxAge, asked, later, heard.data);
      if fetched.Stale? || (fetched.Missing? && found.Some?) {
        reply := Sealed(g, found, now, heard.index);
        return;
      }
      if reading.None? {
        return Unavailable;
      }
      return Data(reading.value.v, reading.value.data.value, reading.value.fetched_at, g.grant.terms,
                  g.grant.terms.Some? && g.grant.terms.value.no_persist == Some(true));
    }

    /** The decorations of a cached grant say what the records say. */
    lemma StatusRuled(g: Held, now: int)
      requires store.Valid() && store.cache.Some? && g in store.cache.value
      ensures store.StatusAt(g, now) == StatusIn(g.grant, store.revocations, store.relinquishments, now)
      ensures store.StatusAt(g, now) == RevokedDetected <==> g.revoked.Some?
      ensures store.StatusAt(g, now) == GrantStatus.Relinquished ==> g.relinquished.Some?
      ensures g.revoked == Ruling(store.revocations, g.grant)
              && g.relinquished == Ruling(store.relinquishments, g.grant)
    {
      assert store.InForce(g, store.revocations, store.relinquishments);
    }

    /** A read through an active grant that asks the relays leaves what the delegator's runs say: `a` is what is
        remembered of the publisher before the read, and the grant is the one it is read through. */
    lemma ReadIsObserved(events: seq<Event>, a: Lifecycle.Agent, g: Grant, shelf: Shelf, maxAge: Option<int>,
                         asked: int, later: int, heard: Heard)
      requires Lifecycle.Usable(a, g.scope) == Some(g) && !Hit(shelf, cache.ttl, KeyOf(g), maxAge, asked)
      ensures Lifecycle.Observed(g.publisher, events, me, a, g.scope, heard.data, heard.notice) ==
              if Seals(g, Active, events, Asked(shelf, g, maxAge, asked, later, heard).1, heard)
              then Sealing(a, g) else a
    {
      hide Hit, ReadStep, FetchScope, Noticed;
      FailsAsFetched(shelf, g, maxAge, asked, later, heard);
      NoticedIs(events, g, heard);
    }

    lemma NoticedIs(events: seq<Event>, g: Grant, heard: Heard)
      ensures Noticed(events, me, g, heard.notice, None).Some? <==>
              heard.notice && NoticeEvent(g.publisher, me, g.scope) in events
    {
    }

    /** A read that asks the relays fails exactly when the fetch does; a read that fails has asked them, and has dropped
        the entry. */
    lemma FailsAsFetched(shelf: Shelf, g: Grant, maxAge: Option<int>, asked: int, later: int, heard: Heard)
      ensures var fetched := FetchScope(heard.data, g.publisher, g.scope, g.v, g.key);
              var left, answer := Asked(shelf, g, maxAge, asked, later, heard).0,
                                  Asked(shelf, g, maxAge, asked, later, heard).1;
              && (answer.Failed? ==> answer.status == fetched && !fetched.Read? && left == shelf - {KeyOf(g)})
              && (!Hit(shelf, cache.ttl, KeyOf(g), maxAge, asked) ==> (answer.Failed? <==> !fetched.Read?))
    {
    }

    /** Detect, seal and report. */
    method Sealed(g: Held, found: Option<Option<string>>, now: int, loaded: bool) returns (reply: Reply)
      requires Valid() && store.cache.Some? && g in store.cache.value && g.revoked.None?
      modifies this, relay, store, store.Footprint(), cache, cache.Readings()
      ensures Valid() && store.cache == old(store.cache) && store.relinquishments == old(store.relinquishments)
      ensures reply == RevokedReply(if found.Some? then found.value else None)
      ensures store.revocations == old(store.revocations)[KeyOf(g.grant) :=
                Mark(g.grant.v, Detection(if found.Some? then found.value else None, now))]
      ensures cache.Contents() == old(cache.Contents()) - {KeyOf(g.grant)}
      ensures store.View(g.grant.publisher) == Sealing(old(store.View(g.grant.publisher)), g.grant)
      ensures Severs(old(relay.events), relay.events, g.grant, old(drawn), loaded, relay.LastLost())
    {
      hide CascadeRun, Ready, Sealing, GrantStore.Apart, GrantStore.View;
      StatusRuled(g, now);
      var record, ended := DetectRevocation(g, if found.Some? then found.value else None, now, loaded);
      return RevokedReply(record.detail.notice);
    }

    /** `nvoy_scope_read` from the start: find the grant among what the wraps query brings, then read through it. */
    method ScopeRead(author: Pub, d: ScopeId, maxAge: Option<int>, received: seq<Grant>, content: Option<string>,
                     now: int, asked: int, later: int, heard: Heard)
      returns (reply: Reply, ghost g: Option<Held>)
      requires Valid() && asked <= later
      modifies this, relay, store, store.Footprint(), cache, cache.Readings()
      ensures Valid() && store.relinquishments == old(store.relinquishments)
      ensures g.Some? ==> store.cache.Some? && g.value in store.cache.value && KeyOf(g.value.grant) == (author, d)
      ensures g.None? ==>
                && reply == NoGrant && store.revocations == old(store.revocations)
                && relay.events == old(relay.events) && cache.Contents() == old(cache.Contents())
      ensures g.Some? ==>
                var answer := Asked(old(cache.Contents()), g.value.grant, maxAge, asked, later, heard);
                Fitting(g.value.grant, old(store.revocations), store.relinquishments, now, old(relay.events), answer.1,
                        heard, content, reply)
      ensures g.Some? ==>
                var answer := Asked(old(cache.Contents()), g.value.grant, maxAge, asked, later, heard);
                var status := StatusIn(g.value.grant, old(store.revocations), store.relinquishments, now);
                var sealed := Seals(g.value.grant, status, old(relay.events), answer.1, heard);
                && cache.Contents() == Left(old(cache.Contents()), g.value.grant, status, sealed, answer.0)
                && (if sealed then
                      && Severs(old(relay.events), relay.events, g.value.grant, old(drawn), heard.index,
                                relay.LastLost())
                      && store.revocations == old(store.revocations)[KeyOf(g.value.grant) :=
                           Seal(old(relay.events), g.value.grant, heard, content, now)]
                    else relay.events == old(relay.events) && store.revocations == old(store.revocations))
      ensures reply.RevokedReply? ==> g.value.revoked.Some? && g.value.scopeKey[..] == Zeros(g.value.scopeKey.Length)
      ensures reply.Data? ==> g.value.scopeKey[..] == store.material(g.value.grant.key)
    {
      hide CascadeRun, Ready, FetchScope, EventGeneration, Severs, Left, Seals, Asked, Hit, GrantStore.Apart,
           GrantStore.InForce, GrantStore.View, GrantStore.Grants, Recorded, ReadStep, StatusIn, Fitting;
      var hit := store.Find(author, d, asked, asked, received);
      g := hit;
      if hit.None? {
        return NoGrant, g;
      }
      reply := ReadThrough(hit.value, maxAge, content, now, asked, later, heard);
      KeyAfterRead(hit.value, old(store.revocations), now, old(relay.events),
                   Asked(old(cache.Contents()), hit.value.grant, maxAge, asked, later, heard).1, heard, content, reply);
    }

    /** After a read: a revoked reply means a zeroed key, and data means the delivered one. */
    lemma KeyAfterRead(g: Held, revs: Revocations, now: int, events: seq<Event>, answer: Answer, heard: Heard,
                       content: Option<string>, reply: Reply)
      requires store.Valid() && store.cache.Some? && g in store.cache.value
      requires Fitting(g.grant, revs, store.relinquishments, now, events, answer, heard, content, reply)
      requires var status := StatusIn(g.grant, revs, store.relinquishments, now);
               store.revocations == if Seals(g.grant, status, events, answer, heard)
                                    then revs[KeyOf(g.grant) := Seal(events, g.grant, heard, content, now)] else revs
      ensures reply.RevokedReply? ==> g.revoked.Some? && g.scopeKey[..] == Zeros(g.scopeKey.Length)
      ensures reply.Data? ==> g.scopeKey[..] == store.material(g.grant.key)
    {
      assert store.InForce(g, store.revocations, store.relinquishments);
    }

    /** A grant that `sweepAutoRelinquish` gives up. */
    ghost predicate Overdue(g: Held, now: int)
      reads g
    {
      g.grant.terms.Some? && g.grant.terms.value.auto_relinquish == Some(true) && store.StatusAt(g, now) == Expired
    }

    /** The terms of the grant say that it is to be given up by now. */
    ghost predicate Lapsed(g: Grant, now: int) {
      && g.terms.Some? && g.terms.value.auto_relinquish == Some(true)
      && var deadline := Deadline(HeldGrant(g, store.expiration(g), false, false));
         deadline.Some? && deadline.value <= now
    }

    /** Records changed only for held grants whose terms called for it, and each says when and why. */
    ghost predicate OnlyLapsed(before: Relinquishments, after: Relinquishments, held: seq<Held>, now: int) {
      forall k | k in after && (k !in before || after[k] != before[k]) ::
          exists g :: g in held && KeyOf(g.grant) == k && Lapsed(g.grant, now)
            && after[k] == Mark(g.grant.v, Destruction(now, Some("auto_relinquish: term expiry reached")))
    }

    lemma NothingLapsed(marks: Relinquishments, now: int)
      ensures OnlyLapsed(marks, marks, [], now)
    {
    }

    lemma LapsesAddUp(before: Relinquishments, middle: Relinquishments, after: Relinquishments, given: seq<Held>,
                      g: Held, now: int)
      requires OnlyLapsed(before, middle, given, now) && OnlyLapsed(middle, after, [g], now)
      ensures OnlyLapsed(before, after, given + [g], now)
    {
      hide Lapsed;
      assert forall h | h in given :: h in given + [g];
      assert g in given + [g];
    }

    /** The sweep: afterwards no cached grant is overdue, and no record but those of overdue grants has changed. */
    method SweepAutoRelinquish(received: seq<Grant>, now: int, asked: int, later: int, canSign: bool)
      returns (done: nat, ghost given: seq<Held>)
      requires Valid() && asked <= later
      modifies relay, store, store.Footprint(), cache, cache.Readings()
      ensures Valid() && store.cache.Some? && store.revocations == old(store.revocations)
      ensures forall g | g in store.cache.value :: !Overdue(g, now)
      ensures NeverLower(old(store.relinquishments), store.relinquishments)
      ensures OnlyLapsed(old(store.relinquishments), store.relinquishments, given, now)
      ensures done == |given| && forall g | g in given :: g in store.cache.value && Lapsed(g.grant, now)
      ensures !canSign ==> relay.events == old(relay.events)
    {
      hide Ready, GrantStore.Apart, GrantStore.View, GrantStore.InForce, GrantStore.Grants, Zeros, OnlyLapsed,
           Lapsed;
      var held := store.List(None, asked, later, received);
      NothingLapsed(store.relinquishments, now);
      done, given := 0, [];
      for i := 0 to |held|
        invariant Valid() && store.cache == Some(held) && store.revocations == old(store.revocations)
        invariant NeverLower(old(store.relinquishments), store.relinquishments)
        invariant OnlyLapsed(old(store.relinquishments), store.relinquishments, given, now)
        invariant done == |given| && forall g | g in given :: g in held && Lapsed(g.grant, now)
        invariant !canSign ==> relay.events == old(relay.events)
        invariant forall j | 0 <= j < i :: !Overdue(held[j], now)
        invariant forall o | o in store.Footprint() :: o in old(store.Footprint()) || fresh(o)
        invariant forall r | r in cache.Readings() :: r in old(cache.Readings()) || fresh(r)
      {
        var g := held[i];
        if g.revoked.None? && g.relinquished.None? && g.grant.terms.Some?
            && g.grant.terms.value.auto_relinquish == Some(true)
           && store.StatusAt(g, now) == Expired {
          ghost var rels := store.relinquishments;
          GiveUp(held, i, now, canSign);
          LapsesAddUp(old(store.relinquishments), rels, store.relinquishments, given, g, now);
          done, given := done + 1, given + [g];
        }
      }
    }

    /** One grant of the sweep. */
    method GiveUp(ghost held: seq<Held>, i: nat, now: int, canSign: bool)
      requires Valid() && store.cache == Some(held) && i < |held|
      requires forall j | 0 <= j < i :: !Overdue(held[j], now)
      requires Overdue(held[i], now)
      modifies relay, store, store.Footprint(), cache, cache.Readings()
      ensures Valid() && store.cache == Some(held) && store.revocations == old(store.revocations)
      ensures NeverLower(old(store.relinquishments), store.relinquishments)
      ensures forall j | 0 <= j <= i :: !Overdue(held[j], now)
      ensures OnlyLapsed(old(store.relinquishments), store.relinquishments, [held[i]], now)
              && Lapsed(held[i].grant, now)
      ensures !canSign ==> relay.events == old(relay.events)
      ensures cache.Readings() <= old(cache.Readings())
    {
      hide Ready, Published, Handback, Overdue, GrantStore.Apart, GrantStore.InForce, GrantStore.View,
           GrantStore.Grants, Zeros;
      ghost var revs, rels := store.revocations, store.relinquishments;
      forall j | 0 <= j <= i {
        OverdueIsOwed(held[j], now);
      }
      var sent := RelinquishGrant(store.cache.value[i], now, Some("auto_relinquish: term expiry reached"), canSign);
      forall j | 0 <= j <= i
        ensures !Overdue(held[j], now)
      {
        OverdueIsOwed(held[j], now);
        RulingStays(rels, store.relinquishments, held[j].grant);
      }
    }

    /** The terms call for it, and no record covers the grant yet. */
    ghost predicate Owed(g: Grant, revs: Revocations, rels: Relinquishments, now: int) {
      Lapsed(g, now) && Ruling(revs, g).None? && Ruling(rels, g).None?
    }

    lemma OverdueIsOwed(g: Held, now: int)
      requires store.Valid() && store.cache.Some? && g in store.cache.value
      ensures Overdue(g, now) <==> Owed(g.grant, store.revocations, store.relinquishments, now)
    {
      assert store.InForce(g, store.revocations, store.relinquishments);
    }
  }

  lemma RulingStays<T>(before: Marks<T>, after: Marks<T>, g: Grant)
    requires NeverLower(before, after)
    ensures Ruling(before, g).Some? ==> Ruling(after, g).Some?
  {
  }
}
