/** mcp/src/grants.ts: the agent's view of the grants it holds, and the destruction of dead key material. */
module GrantStores {
  import opened Options
  import opened Sequences
  import opened JsMaps
  import opened Records
  import opened GrantTerms
  import Lifecycle

  newtype byte = x: int | 0 <= x < 256

  type ScopeKeyOf = (Pub, ScopeId)

  /** A record that every grant of a scope up to some generation is dead, and why. */
  datatype Mark<T> = Mark(generation: nat, detail: T)

  /** A rotation past a grant, found out by this agent. */
  datatype Detection = Detection(notice: Option<string>, detected_at: int)

  /** A relinquishment this agent performed. */
  datatype Destruction = Destruction(destroyed_at: int, reason: Option<string>)

  type Marks<T> = map<ScopeKeyOf, Mark<T>>

  type Revocations = Marks<Detection>

  type Relinquishments = Marks<Destruction>

  function KeyOf(g: Grant): ScopeKeyOf { (g.publisher, g.scope) }

  // ---------------------------------------------------------------- latestGrants

  /** `latestGrants`: the newest grant of each (publisher, scope), the first one among equals. */
  function LatestMap(received: seq<Grant>): JsMap<ScopeKeyOf, Grant>
    decreases |received|
  {
    if received == [] then []
    else
      var best, g := LatestMap(received[..|received| - 1]), received[|received| - 1];
      if !Has(best, KeyOf(g)) || g.v > Get(best, KeyOf(g)).value.v then Set(best, KeyOf(g), g) else best
  }

  method LatestGrants(received: seq<Grant>) returns (latest: seq<Grant>)
    ensures latest == Values(LatestMap(received))
  {
    var best: JsMap<ScopeKeyOf, Grant> := [];
    for i := 0 to |received|
      invariant best == LatestMap(received[..i])
    {
      var g := received[i];
      assert received[..i + 1][..i] == received[..i];
      if !Has(best, KeyOf(g)) || g.v > Get(best, KeyOf(g)).value.v {
        best := Set(best, KeyOf(g), g);
      }
    }
    assert received[..|received|] == received;
    latest := Values(best);
  }

  function By(me: Pub): Grant -> bool {
    (g: Grant) => g.publisher == me
  }

  /** Every (publisher, scope) occurs once, under the grant that bears its name. */
  ghost predicate Keyed(m: JsMap<ScopeKeyOf, Grant>) {
    Distinct(m) && forall i | 0 <= i < |m| :: m[i].key == KeyOf(m[i].value)
  }

  lemma {:induction false} LatestMapIsKeyed(received: seq<Grant>)
    ensures Keyed(LatestMap(received))
    decreases |received|
  {
    if received != [] {
      LatestMapIsKeyed(received[..|received| - 1]);
      var g := received[|received| - 1];
      SetThenGet(LatestMap(received[..|received| - 1]), KeyOf(g), g);
    }
  }

  /** What the map keeps for one publisher's scope is that publisher's latest grant of it. */
  lemma {:induction false} LatestMapIs(received: seq<Grant>, me: Pub, scope: ScopeId)
    ensures Get(LatestMap(received), (me, scope)) == Lifecycle.Latest(Filter(By(me), received), scope)
    decreases |received|
  {
    hide Get, Set, Find, Filter;
    if received != [] {
      var fewer, g := received[..|received| - 1], received[|received| - 1];
      var mine := Filter(By(me), fewer);
      LatestMapIs(fewer, me, scope);
      NewestFirst(LatestMap(fewer), g, (me, scope));
      assert received == fewer + [g];
      FilterAppend(By(me), fewer, [g]);
      FilterOne(By(me), g);
      if g.publisher == me {
        assert (mine + [g])[..|mine + [g]| - 1] == mine;
      } else {
        assert mine + [] == mine;
      }
    } else {
      assert Filter(By(me), received) == [];
      NothingYet((me, scope));
    }
  }

  lemma NothingYet(k: ScopeKeyOf)
    ensures Get(LatestMap([]), k) == None
  {
  }

  lemma FilterOne(keep: Grant -> bool, g: Grant)
    ensures Filter(keep, [g]) == if keep(g) then [g] else []
  {
  }

  /** One more grant replaces what is kept under its name only when it is newer. */
  lemma NewestFirst(best: JsMap<ScopeKeyOf, Grant>, g: Grant, k: ScopeKeyOf)
    ensures var newer := (!Has(best, KeyOf(g)) || g.v > Get(best, KeyOf(g)).value.v);
            Get(if newer then Set(best, KeyOf(g), g) else best, k)
            == if k == KeyOf(g) && (Get(best, k).None? || g.v > Get(best, k).value.v) then Some(g) else Get(best, k)
  {
    SetThenGet(best, KeyOf(g), g);
  }

  /** `latestGrants` forgets nothing that matters: the newest grant of every scope is the same before and after. */
  lemma LatestGrantsKeepLatest(received: seq<Grant>, me: Pub)
    ensures Lifecycle.Cached(Filter(By(me), Values(LatestMap(received)))) == Lifecycle.Cached(Filter(By(me), received))
  {
    hide LatestMap, Filter;
    var m := LatestMap(received);
    var kept, all := Filter(By(me), Values(m)), Filter(By(me), received);
    LatestMapIsKeyed(received);
    forall scope
      ensures Lifecycle.Latest(kept, scope) == Lifecycle.Latest(all, scope)
    {
      LatestMapIs(received, me, scope);
      Lifecycle.LatestIs(kept, scope);
      if Has(m, (me, scope)) {
        assert m[Find(m, (me, scope))].value == Values(m)[Find(m, (me, scope))];
        assert Values(m)[Find(m, (me, scope))] in kept;
      }
      if Lifecycle.Latest(kept, scope).Some? {
        var g := Lifecycle.Latest(kept, scope).value;
        var i :| 0 <= i < |m| && m[i].value == g;
        FindIs(m, i);
      }
    }
    SameLatestSameCache(kept, all);
  }

  lemma SameLatestSameCache(a: seq<Grant>, b: seq<Grant>)
    requires forall s :: Lifecycle.Latest(a, s) == Lifecycle.Latest(b, s)
    ensures Lifecycle.Cached(a) == Lifecycle.Cached(b)
  {
    forall s
      ensures s in Lifecycle.Cached(a) <==> Lifecycle.Latest(a, s).Some?
      ensures s in Lifecycle.Cached(b) <==> Lifecycle.Latest(b, s).Some?
    {
      Lifecycle.LatestIs(a, s);
      Lifecycle.LatestIs(b, s);
    }
  }

  // ---------------------------------------------------------------- the store

  /** The record that a mark leaves: an equal or higher one stays. */
  function Recorded<T>(marks: Marks<T>, key: ScopeKeyOf, mark: Mark<T>): Mark<T> {
    if key in marks && marks[key].generation >= mark.generation then marks[key] else mark
  }

  /** The mark that kills a grant: the record of its scope, when the grant is not newer. */
  function Ruling<T>(marks: Marks<T>, g: Grant): Option<Mark<T>> {
    if KeyOf(g) in marks && g.v <= marks[KeyOf(g)].generation then Some(marks[KeyOf(g)]) else None
  }

  function Generations<T>(marks: Marks<T>, me: Pub): map<ScopeId, nat> {
    map s | s in (set k | k in marks :: k.1) && (me, s) in marks :: marks[(me, s)].generation
  }

  lemma RecordedGenerations<T>(marks: Marks<T>, publisher: Pub, scope: ScopeId, record: Mark<T>, me: Pub)
    ensures Generations(marks[(publisher, scope) := record], me)
            == if me == publisher then Generations(marks, me)[scope := record.generation] else Generations(marks, me)
  {
  }

  ghost predicate NeverLower<T>(before: Marks<T>, after: Marks<T>) {
    forall k | k in before :: k in after && before[k].generation <= after[k].generation
  }

  ghost function Zeros(n: nat): seq<byte> {
    seq(n, _ => 0)
  }

  /** A grant in memory: its scope key is an array of bytes that can really be overwritten. */
  class Held {
    const grant: Grant
    const scopeKey: array<byte>
    var revoked: Option<Mark<Detection>>
    var relinquished: Option<Mark<Destruction>>

    constructor (grant: Grant, key: seq<byte>)
      ensures this.grant == grant && scopeKey[..] == key && fresh(scopeKey)
      ensures revoked == None && relinquished == None
    {
      this.grant := grant;
      scopeKey := new byte[|key|](i requires 0 <= i < |key| => key[i]);
      revoked, relinquished := None, None;
    }
  }

  ghost function GrantsOf(held: seq<Held>): seq<Grant> {
    seq(|held|, i requires 0 <= i < |held| => held[i].grant)
  }

  lemma MissMeansNone(held: seq<Held>, received: seq<Grant>, author: Pub, scope: ScopeId)
    requires GrantsOf(held) == Values(LatestMap(received)) && forall g | g in held :: KeyOf(g.grant) != (author, scope)
    ensures Lifecycle.Latest(Filter(By(author), received), scope) == None
  {
    var m := LatestMap(received);
    LatestMapIs(received, author, scope);
    LatestMapIsKeyed(received);
    forall i | 0 <= i < |m|
      ensures m[i].key != (author, scope)
    {
      assert GrantsOf(held)[i] == m[i].value && held[i] in held;
    }
  }

  method Zeroize(a: array<byte>)
    modifies a
    ensures a[..] == Zeros(a.Length)
  {
    for i := 0 to a.Length
      invariant forall j | 0 <= j < i :: a[j] == 0
    {
      a[i] := 0;
    }
  }

  class GrantStore {
    var cache: Option<seq<Held>>
    var fetchedAt: int
    var revocations: Revocations
    var relinquishments: Relinquishments
    const ttl: int
    /** The bytes that a delivered key decodes to, and the advisory expiration tag a grant came with. */
    const material: Key -> seq<byte>
    const expiration: Grant -> Option<int>

    constructor (ttl: int, material: Key -> seq<byte>, expiration: Grant -> Option<int>)
      ensures Valid() && cache == None && revocations == map[] && relinquishments == map[]
      ensures this.ttl == ttl && this.material == material && this.expiration == expiration
    {
      cache, fetchedAt, revocations, relinquishments := None, 0, map[], map[];
      this.ttl, this.material, this.expiration := ttl, material, expiration;
    }

    ghost function Footprint(): set<object>
      reads this
      ensures forall o | o in Footprint() :: o is Held || o is array<byte>
      ensures cache.Some? ==> forall g | g in cache.value :: g in Footprint() && g.scopeKey in Footprint()
    {
      match cache
      case None => {}
      case Some(gs) => (set g | g in gs :: g as object) + (set g | g in gs :: g.scopeKey as object)
    }

    /** The decoration of a grant and the bytes of its key follow from the records. */
    ghost predicate InForce(g: Held, revs: Revocations, rels: Relinquishments)
      reads g, g.scopeKey
    {
      && g.revoked == Ruling(revs, g.grant) && g.relinquished == Ruling(rels, g.grant)
      && g.scopeKey.Length == |material(g.grant.key)|
      && g.scopeKey[..] == if g.revoked.Some? || g.relinquished.Some? then Zeros(g.scopeKey.Length)
         else material(g.grant.key)
    }

    /** No two cached grants share an object or a key buffer. */
    ghost predicate Apart(gs: seq<Held>) {
      forall i, j | 0 <= i < j < |gs| :: gs[i] != gs[j] && gs[i].scopeKey != gs[j].scopeKey
    }

    ghost predicate Valid()
      reads this, Footprint()
    {
      cache.Some? ==> Apart(cache.value) && forall g | g in cache.value :: InForce(g, revocations, relinquishments)
    }

    ghost function Grants(): seq<Grant>
      reads this
    {
      if cache.None? then [] else GrantsOf(cache.value)
    }

    /** What the store knows about one publisher: its newest grants and the generations it recorded as revoked. */
    ghost function View(me: Pub): Lifecycle.Agent
      reads this
    {
      Lifecycle.Agent(Lifecycle.Cached(Filter(By(me), Grants())),
                      Generations(revocations, me))
    }

    /** `applyRevocation`: decorate a grant that a record kills, and overwrite its key. */
    method ApplyRevocation(g: Held)
      modifies g, g.scopeKey
      ensures g.revoked == if Ruling(revocations, g.grant).Some? then Ruling(revocations, g.grant) else old(g.revoked)
      ensures g.relinquished == if Ruling(relinquishments, g.grant).Some? then Ruling(relinquishments, g.grant)
              else old(g.relinquished)
      ensures g.scopeKey[..] == if Ruling(revocations, g.grant).Some? || Ruling(relinquishments, g.grant).Some?
                                then Zeros(g.scopeKey.Length) else old(g.scopeKey[..])
    {
      var key := KeyOf(g.grant);
      if key in revocations && g.grant.v <= revocations[key].generation {
        g.revoked := Some(revocations[key]);
        Zeroize(g.scopeKey);
      }
      if key in relinquishments && g.grant.v <= relinquishments[key].generation {
        g.relinquished := Some(relinquishments[key]);
        Zeroize(g.scopeKey);
      }
    }

    /** Apply the records to every cached grant, which so far is in force under older records. */
    method ApplyAll(ghost revs: Revocations, ghost rels: Relinquishments)
      requires cache.Some? ==> Apart(cache.value) && forall g | g in cache.value :: InForce(g, revs, rels)
      requires NeverLower(revs, revocations) && NeverLower(rels, relinquishments)
      modifies Footprint() - {this}
      ensures Valid()
    {
      if cache.Some? {
        var gs := cache.value;
        for i := 0 to |gs|
          invariant forall j | 0 <= j < i :: InForce(gs[j], revocations, relinquishments)
          invariant forall j | i <= j < |gs| :: InForce(gs[j], revs, rels)
        {
          ApplyRevocation(gs[i]);
        }
      }
    }

    /** Record a detected revocation and destroy the key material it kills. */
    method MarkRevoked(publisher: Pub, scope: ScopeId, generation: nat, notice: Option<string>, now: int)
      returns (record: Mark<Detection>)
      requires Valid()
      modifies this, Footprint()
      ensures Valid() && cache == old(cache) && relinquishments == old(relinquishments)
      ensures record == Recorded(old(revocations), (publisher, scope), Mark(generation, Detection(notice, now)))
      ensures revocations == old(revocations)[(publisher, scope) := record]
      ensures NeverLower(old(revocations), revocations) && generation <= record.generation
      ensures forall me :: View(me) == Lifecycle.Agent(old(View(me)).cached,
                                          if me == publisher then Lifecycle.MarkRevoked(old(View(me)).revoked, scope,
                                              generation)
                                          else old(View(me)).revoked)
    {
      hide InForce, Apart, Lifecycle.Cached, Filter;
      var key := (publisher, scope);
      ghost var was := revocations;
      record := if key in revocations && revocations[key].generation >= generation then revocations[key]
                else Mark(generation, Detection(notice, now));
      revocations := revocations[key := record];
      ApplyAll(was, relinquishments);
      forall me {
        RecordedGenerations(was, publisher, scope, record, me);
      }
    }

    /** Record a relinquishment by this agent and destroy the key material it covers. */
    method MarkRelinquished(publisher: Pub, scope: ScopeId, generation: nat, destroyedAt: int, reason: Option<string>)
      returns (record: Mark<Destruction>)
      requires Valid()
      modifies this, Footprint()
      ensures Valid() && cache == old(cache) && revocations == old(revocations)
      ensures record == Recorded(old(relinquishments), (publisher, scope),
                                 Mark(generation, Destruction(destroyedAt, NonEmpty(reason))))
      ensures relinquishments == old(relinquishments)[(publisher, scope) := record]
      ensures NeverLower(old(relinquishments), relinquishments) && generation <= record.generation
      ensures forall me :: View(me) == old(View(me))
    {
      var key := (publisher, scope);
      ghost var was := relinquishments;
      record := if key in relinquishments && relinquishments[key].generation >= generation then relinquishments[key]
                else Mark(generation, Destruction(destroyedAt, NonEmpty(reason)));
      relinquishments := relinquishments[key := record];
      ApplyAll(revocations, was);
    }

    /** Build the cached objects of the newest grants. */
    method Materialize(received: seq<Grant>) returns (held: seq<Held>)
      ensures GrantsOf(held) == Values(LatestMap(received)) && Apart(held)
      ensures forall g | g in held :: fresh(g) && fresh(g.scopeKey) && InForce(g, map[], map[])
    {
      hide LatestMap, Values;
      var latest := LatestGrants(received);
      held := [];
      for i := 0 to |latest|
        invariant GrantsOf(held) == latest[..i] && |held| == i && Apart(held)
        invariant forall g | g in held :: fresh(g) && fresh(g.scopeKey) && InForce(g, map[], map[])
      {
        var g := new Held(latest[i], material(latest[i].key));
        assert forall j | 0 <= j < i :: held[j] in held;
        held := held + [g];
      }
      assert latest[..|latest|] == latest;
    }

    /** `list`: the cached grants, after a fresh query when they are too old; `received` is what a query would find. */
    method List(maxAge: Option<int>, now: int, later: int, received: seq<Grant>) returns (held: seq<Held>)
      requires Valid() && now <= later
      modifies this
      ensures Valid() && cache == Some(held) && revocations == old(revocations)
              && relinquishments == old(relinquishments)
      ensures if old(cache).None? || now - old(fetchedAt) > (if maxAge.Some? then maxAge.value else ttl)
              then fresh(Footprint()) && fetchedAt == later && Grants() == Values(LatestMap(received))
                   && forall me ::
                      View(me) == Lifecycle.Agent(Lifecycle.Cached(Filter(By(me), received)), old(View(me)).revoked)
              else cache == old(cache) && fetchedAt == old(fetchedAt) && forall me :: View(me) == old(View(me))
      ensures forall o | o in Footprint() :: o in old(Footprint()) || fresh(o)
    {
      var age := if maxAge.Some? then maxAge.value else ttl;
      if cache.None? || now - fetchedAt > age {
        var gs := Materialize(received);
        cache := Some(gs);
        fetchedAt := later;
        ApplyAll(map[], map[]);
        forall me {
          LatestGrantsKeepLatest(received, me);
        }
      }
      held := cache.value;
    }

    /** The first cached grant of (author, scope). */
    method Match(author: Pub, scope: ScopeId) returns (found: Option<Held>)
      requires cache.Some?
      ensures found.Some? ==> found.value in cache.value && KeyOf(found.value.grant) == (author, scope)
      ensures found.None? ==> forall g | g in cache.value :: KeyOf(g.grant) != (author, scope)
    {
      var gs := cache.value;
      for i := 0 to |gs|
        invariant forall j | 0 <= j < i :: KeyOf(gs[j].grant) != (author, scope)
      {
        if KeyOf(gs[i].grant) == (author, scope) {
          return Some(gs[i]);
        }
      }
      return None;
    }

    /** `find`: on a miss the store looks again, once; `received` is what the relays hold meanwhile. */
    method Find(author: Pub, scope: ScopeId, now: int, later: int, received: seq<Grant>) returns (found: Option<Held>)
      requires Valid() && now <= later
      modifies this
      ensures Valid() && cache.Some? && revocations == old(revocations) && relinquishments == old(relinquishments)
      ensures found.Some? ==> found.value in cache.value && KeyOf(found.value.grant) == (author, scope)
      ensures found.None? ==> forall g | g in cache.value :: KeyOf(g.grant) != (author, scope)
      ensures forall o | o in Footprint() :: o in old(Footprint()) || fresh(o)
      ensures old(cache).Some? && now - old(fetchedAt) <= ttl
              && (exists g :: g in old(cache).value && KeyOf(g.grant) == (author, scope)) ==>
                cache == old(cache) && fetchedAt == old(fetchedAt)
      ensures old(cache).None? || old(fetchedAt) < now ==>
                found.None? ==> Lifecycle.Latest(Filter(By(author), received), scope) == None
    {
      hide InForce, Apart, Generations, Filter, LatestMap, Lifecycle.Cached, Lifecycle.Latest;
      var held := List(None, now, later, received);
      found := Match(author, scope);
      if found.None? {
        held := List(Some(0), later, later, received);
        found := Match(author, scope);
        if found.None? && Grants() == Values(LatestMap(received)) {
          MissMeansNone(held, received, author, scope);
        }
      }
    }

    /** A cached grant with the marks it bears, as its status is computed from them. */
    function StatusAt(g: Held, now: int): GrantStatus
      reads g
    {
      StatusOf(HeldGrant(g.grant, expiration(g.grant), g.revoked.Some?, g.relinquished.Some?), now)
    }

    /** Shutdown: every cached key is overwritten and the cache is dropped. */
    method ZeroizeAll()
      requires Valid()
      modifies this, Footprint()
      ensures Valid() && cache == None && revocations == old(revocations) && relinquishments == old(relinquishments)
      ensures old(cache).Some? ==> forall g | g in old(cache).value :: g.scopeKey[..] == Zeros(g.scopeKey.Length)
    {
      if cache.Some? {
        var gs := cache.value;
        for i := 0 to |gs|
          invariant cache == old(cache) && revocations == old(revocations) && relinquishments == old(relinquishments)
          invariant forall j | 0 <= j < i :: gs[j].scopeKey[..] == Zeros(gs[j].scopeKey.Length)
        {
          Zeroize(gs[i].scopeKey);
        }
      }
      cache := None;
    }
  }
}
