/** mcp/src/scopes.ts: the short-lived plaintext cache in front of the relays. */
module ScopeCaches {
  import opened Options
  import opened Records
  import opened Relays
  import Lifecycle

  type Name = (Pub, ScopeId)

  /** What a cache entry stands for: a payload, its generation, when it was stored and when it was fetched. */
  datatype Snapshot = Snapshot(at: int, v: nat, data: Payload, fetched_at: int)

  datatype Answer = Served(v: nat, data: Payload, fetched_at: int) | Failed(status: Fetched)

  type Shelf = map<Name, Snapshot>

  function AnswerOf(s: Snapshot): Answer { Served(s.v, s.data, s.fetched_at) }

  /** A shelf read is a hit when its entry is younger than both the ttl and the caller's limit. */
  predicate Hit(shelf: Shelf, ttl: int, name: Name, maxAge: Option<int>, now: int) {
    var limit := if maxAge.Some? then maxAge.value else ttl;
    limit > 0 && name in shelf && now - shelf[name].at < (if limit < ttl then limit else ttl)
  }

  /** One read: asked at `now`, and, when it is not a hit, answered by the relays with `fetched` at `later`. */
  function ReadStep(shelf: Shelf, ttl: int, name: Name, maxAge: Option<int>, now: int, later: int,
                    fetched: Fetched): (Shelf, Answer) {
    if Hit(shelf, ttl, name, maxAge, now) then (shelf, AnswerOf(shelf[name]))
    else match fetched
      case Read(v, data) => (shelf[name := Snapshot(later, v, data, later / 1000)], Served(v, data, later / 1000))
      case _ => (shelf - {name}, Failed(fetched))
  }

  function Swept(shelf: Shelf, ttl: int, now: int): Shelf {
    map n | n in shelf && shelf[n].at >= now - ttl :: shelf[n]
  }

  // ---------------------------------------------------------------- how stale an answer can be

  /** What happens to a cache: reads through some grant, against what the relays that answer have stored; drops;
      sweeps. */
  datatype Op =
    | Ask(name: Name, v: nat, key: Key, maxAge: Option<int>, now: int, later: int, events: seq<Event>)
    | Drop(name: Name, now: int)
    | Clear(now: int)
    | Sweep(now: int)

  ghost function Start(op: Op): int { op.now }

  ghost function End(op: Op): int { if op.Ask? then op.later else op.now }

  function Apply(shelf: Shelf, ttl: int, op: Op): (Shelf, Option<Answer>) {
    match op
    case Ask(name, v, key, maxAge, now, later, events) =>
      var (shelf', answer) := ReadStep(shelf, ttl, name, maxAge, now, later,
                                       FetchScope(events, name.0, name.1, v, key));
      (shelf', Some(answer))
    case Drop(name, _) => (shelf - {name}, None)
    case Clear(_) => (map[], None)
    case Sweep(now) => (Swept(shelf, ttl, now), None)
  }

  /** The shelf after the first `n` operations. */
  function ShelfAfter(ttl: int, ops: seq<Op>, n: nat): Shelf
    requires n <= |ops|
  {
    if n == 0 then map[] else Apply(ShelfAfter(ttl, ops, n - 1), ttl, ops[n - 1]).0
  }

  /** What the `k`-th operation, a read, answers. */
  function AnswerAt(ttl: int, ops: seq<Op>, k: nat): Answer
    requires k < |ops| && ops[k].Ask?
  {
    Apply(ShelfAfter(ttl, ops, k), ttl, ops[k]).1.value
  }

  /** One operation after the other, on a clock that does not run backwards. */
  ghost predicate Timed(ops: seq<Op>) {
    && (forall i | 0 <= i < |ops| :: Start(ops[i]) <= End(ops[i]))
    && forall i, j | 0 <= i < j < |ops| :: End(ops[i]) <= Start(ops[j])
  }

  /** From `since` on every data set that is fetched is past the grant through which it is read. */
  ghost predicate RotatedPast(ops: seq<Op>, name: Name, since: int) {
    forall i | 0 <= i < |ops| && ops[i].Ask? && ops[i].name == name && ops[i].later >= since ::
      HasData(ops[i].events, name.0, name.1) ==> DataAt(ops[i].events, name.0, name.1).v > ops[i].v
  }

  lemma RotatedIsNotRead(ops: seq<Op>, i: nat, since: int)
    requires i < |ops| && ops[i].Ask? && RotatedPast(ops, ops[i].name, since) && ops[i].later >= since
    ensures !FetchScope(ops[i].events, ops[i].name.0, ops[i].name.1, ops[i].v, ops[i].key).Read?
  {
  }

  /** An entry after an operation was there before, or was stored by a fetch that succeeded. */
  lemma WhoStored(shelf: Shelf, ttl: int, op: Op, name: Name)
    requires name in Apply(shelf, ttl, op).0
    ensures (name in shelf && Apply(shelf, ttl, op).0[name] == shelf[name])
            || (op.Ask? && op.name == name && Apply(shelf, ttl, op).0[name].at == op.later
                && FetchScope(op.events, name.0, name.1, op.v, op.key).Read?)
  {
    hide FetchScope;
  }

  /** From the move on nothing is stored: every entry was stored before it. */
  lemma {:induction false} StoredBefore(ttl: int, ops: seq<Op>, n: nat, name: Name, since: int)
    requires RotatedPast(ops, name, since) && n <= |ops|
    ensures name in ShelfAfter(ttl, ops, n) ==> ShelfAfter(ttl, ops, n)[name].at < since
  {
    hide FetchScope, HasData, DataAt, Apply;
    if n > 0 && name in ShelfAfter(ttl, ops, n) {
      StoredBefore(ttl, ops, n - 1, name, since);
      var op := ops[n - 1];
      WhoStored(ShelfAfter(ttl, ops, n - 1), ttl, op, name);
      if op.Ask? && op.name == name && op.later >= since {
        RotatedIsNotRead(ops, n - 1, since);
      }
    }
  }

  /** The staleness bound: once the scope moved past the grant, a cached answer outlives the move by less than the ttl,
      and a forced read serves nothing at all. */
  lemma StalenessBound(ttl: int, ops: seq<Op>, n: nat, since: int)
    requires n < |ops| && ops[n].Ask? && Timed(ops) && RotatedPast(ops, ops[n].name, since)
    requires AnswerAt(ttl, ops, n).Served?
    ensures ops[n].later >= since ==> ops[n].now < since + ttl
    ensures ops[n].maxAge.Some? ==> ops[n].maxAge.value <= 0 ==> ops[n].later < since
    ensures ops[n].maxAge.Some? ==> ops[n].later >= since ==> ops[n].now < since + ops[n].maxAge.value
  {
    hide FetchScope, HasData, DataAt;
    StoredBefore(ttl, ops, n, ops[n].name, since);
    var op := ops[n];
    if op.later >= since {
      RotatedIsNotRead(ops, n, since);
    }
  }

  /** The bound over a delegator's run: a scope moved past grant `g` in state `n`, and no fetch from `since` on brings a
      data set of an earlier state (a fetch that brings none is one from the empty beginning). Reading it through `g`,
      or through an older grant, stops within the ttl. */
  lemma RevocationReachesTheCache(me: Pub, ws: seq<Lifecycle.World>, steps: seq<Lifecycle.Step>, n: nat, p: Pub,
                                  g: Grant, ttl: int, ops: seq<Op>, seen: seq<nat>, k: nat, since: int)
    requires Lifecycle.Run(me, ws, steps) && n <= |steps|
    requires GrantEvent(p, g) in ws[n].events && g.publisher == me
    requires HasData(ws[n].events, me, g.scope) && g.v < DataAt(ws[n].events, me, g.scope).v
    requires Timed(ops) && |seen| == |ops| && k < |ops| && ops[k].Ask? && ops[k].name == (me, g.scope)
    requires forall i | 0 <= i < |ops| && ops[i].Ask? && ops[i].name == (me, g.scope) ::
               && seen[i] <= |steps| && ops[i].events == ws[seen[i]].events && ops[i].v <= g.v
               && (ops[i].later >= since && HasData(ops[i].events, me, g.scope) ==> n <= seen[i])
    ensures AnswerAt(ttl, ops, k).Served? && ops[k].later >= since ==>
              ops[k].now < since + ttl && (ops[k].maxAge.Some? ==> 0 < ops[k].maxAge.value)
  {
    hide HasData, DataAt, Lifecycle.Run, AnswerAt;
    forall i | 0 <= i < |ops| && ops[i].Ask? && ops[i].name == (me, g.scope) && ops[i].later >= since
        && HasData(ops[i].events, me, g.scope)
      ensures DataAt(ops[i].events, me, g.scope).v > ops[i].v
    {
      Lifecycle.PastForGood(me, ws, steps, n, seen[i], p, g);
    }
    if AnswerAt(ttl, ops, k).Served? {
      StalenessBound(ttl, ops, k, since);
    }
  }

  /** The cache forgets which grant filled it: a superseded grant is served what a newer grant of the scope fetched. */
  lemma GenerationIsNotPartOfTheName(ttl: int, name: Name, data: Payload, now: int)
    requires ttl > 1
    ensures var events := [SetEvent(name.0, name.1, 0, 2, 7, data)];
            var ops := [Ask(name, 2, 7, None, now, now, events), Ask(name, 1, 3, None, now, now + 1, events)];
            && Timed(ops) && FetchScope(events, name.0, name.1, 1, 3) == Stale(2)
            && AnswerAt(ttl, ops, 1) == Served(2, data, now / 1000)
  {
    var events := [SetEvent(name.0, name.1, 0, 2, 7, data)];
    var ops := [Ask(name, 2, 7, None, now, now, events), Ask(name, 1, 3, None, now, now + 1, events)];
    var e := events[0];
    assert OnePerSlot(events);
    CurrentIsStored(events, DataSlot(name.0, name.1));
    assert Current(events, DataSlot(name.0, name.1)) == Some(e);
    assert ShelfAfter(ttl, ops, 0) == map[];
    assert ShelfAfter(ttl, ops, 1) == Apply(ShelfAfter(ttl, ops, 0), ttl, ops[0]).0;
  }

  // ---------------------------------------------------------------- the cache itself

  /** A decoded payload in memory; scrubbing it reaches everybody who still holds it. */
  class Reading {
    const v: nat
    const fetched_at: int
    var data: Option<Payload>

    constructor (v: nat, data: Payload, fetched_at: int)
      ensures this.v == v && this.data == Some(data) && this.fetched_at == fetched_at
    {
      this.v, this.data, this.fetched_at := v, Some(data), fetched_at;
    }
  }

  datatype CacheEntry = CacheEntry(at: int, result: Reading)

  class ScopeCache {
    var entries: map<Name, CacheEntry>
    const ttl: int

    constructor (ttl: int)
      ensures Valid() && Contents() == map[] && this.ttl == ttl
    {
      entries, this.ttl := map[], ttl;
    }

    ghost function Readings(): set<Reading>
      reads this
    {
      set n | n in entries :: entries[n].result
    }

    /** Every cached payload is intact, and no two names share one. */
    ghost predicate Valid()
      reads this, Readings()
    {
      && (forall n | n in entries :: entries[n].result.data.Some?)
      && forall m, n | m in entries && n in entries && m != n :: entries[m].result != entries[n].result
    }

    ghost function Contents(): Shelf
      reads this, Readings()
      requires Valid()
    {
      map n | n in entries ::
          Snapshot(entries[n].at, entries[n].result.v, entries[n].result.data.value, entries[n].result.fetched_at)
    }

    /** Read through the cache; a fetch brings what the relays that answer have, the empty `events` when none does. */
    method ReadScope(name: Name, v: nat, key: Key, maxAge: Option<int>, now: int, later: int, events: seq<Event>)
      returns (status: Fetched, result: Option<Reading>)
      requires Valid() && now <= later
      modifies this
      ensures Valid()
      ensures Contents() == ReadStep(old(Contents()), ttl, name, maxAge, now, later,
                                     FetchScope(events, name.0, name.1, v, key)).0
      ensures (if result.Some? && result.value.data.Some?
               then Served(result.value.v, result.value.data.value, result.value.fetched_at) else Failed(status))
              == ReadStep(old(Contents()), ttl, name, maxAge, now, later, FetchScope(events, name.0, name.1, v, key)).1
      ensures result.Some? <==> name in entries
      ensures result.None? ==> status == FetchScope(events, name.0, name.1, v, key)
      ensures status.Read? <==> result.Some?
      ensures result.Some? ==> result.value.data.Some? && status == Read(result.value.v, result.value.data.value)
      ensures forall r | r in Readings() :: r in old(Readings()) || fresh(r)
      ensures result.Some? ==> entries[name].result == result.value && result.value.data.Some?
    {
      hide FetchScope;
      var limit := if maxAge.Some? then maxAge.value else ttl;
      if limit > 0 && name in entries && now - entries[name].at < (if limit < ttl then limit else ttl) {
        var hit := entries[name].result;
        return Read(hit.v, hit.data.value), Some(hit);
      }
      status := FetchScope(events, name.0, name.1, v, key);
      result := Keep(name, status, later);
    }

    /** Store a successful fetch; a failed one drops whatever was there. */
    method Keep(name: Name, status: Fetched, later: int) returns (result: Option<Reading>)
      requires Valid()
      modifies this
      ensures Valid() && (status.Read? <==> result.Some?)
      ensures Contents() == match status
                            case Read(v, data) => old(Contents())[name := Snapshot(later, v, data, later / 1000)]
                            case _ => old(Contents()) - {name}
      ensures result.Some? <==> name in entries
      ensures result.Some? ==>
              entries[name].result == result.value && result.value.v == status.v
                  && result.value.data == Some(status.data)
                               && result.value.fetched_at == later / 1000
      ensures forall r | r in Readings() :: r in old(Readings()) || fresh(r)
    {
      ghost var shelf := Contents();
      if status.Read? {
        var reading := new Reading(status.v, status.data, later / 1000);
        entries := entries[name := CacheEntry(later, reading)];
        assert Contents() == shelf[name := Snapshot(later, status.v, status.data, later / 1000)];
        return Some(reading);
      }
      entries := entries - {name};
      assert Contents() == shelf - {name};
      return None;
    }

    /** `scrub`: sever the payload from every reference to it. */
    method Scrub(entry: CacheEntry)
      modifies entry.result
      ensures entry.result.data == None
    {
      entry.result.data := None;
    }

    method Invalidate(name: Name)
      requires Valid()
      modifies this
      ensures Valid() && Contents() == old(Contents()) - {name}
    {
      entries := entries - {name};
    }

    /** The revocation path: the payload of one scope is destroyed, wherever it was handed out. */
    method Zeroize(name: Name)
      requires Valid()
      modifies this, Readings()
      ensures Valid() && Contents() == old(Contents()) - {name}
      ensures name in old(entries) ==> old(entries)[name].result.data == None
      ensures Readings() <= old(Readings())
    {
      if name in entries {
        Scrub(entries[name]);
      }
      entries := entries - {name};
    }

    method Clear()
      requires Valid()
      modifies this, Readings()
      ensures Valid() && Contents() == map[]
      ensures forall r | r in old(Readings()) :: r.data == None
    {
      Forget(entries.Keys);
    }

    /** Scrub and drop the entries of some names. */
    method Forget(names: set<Name>)
      requires Valid() && names <= entries.Keys
      modifies this, Readings()
      ensures Valid() && Contents() == old(Contents()) - names && entries == old(entries) - names
      ensures forall n | n in names :: old(entries)[n].result.data == None
    {
      var left := names;
      while left != {}
        invariant left <= names && entries == old(entries)
        invariant forall n | n in names - left :: entries[n].result.data == None
        invariant forall n | n in entries && n !in names - left :: entries[n].result.data == old(entries[n].result.data)
        decreases |left|
      {
        var n :| n in left;
        Scrub(entries[n]);
        left := left - {n};
      }
      entries := entries - names;
    }

    /** `sweep`: entries past the ttl are scrubbed, not merely skipped. */
    method SweepExpired(now: int)
      requires Valid()
      modifies this, Readings()
      ensures Valid() && Contents() == Apply(old(Contents()), ttl, Op.Sweep(now)).0
      ensures forall n :: n in entries <==> n in old(entries) && now - old(entries)[n].at <= ttl
      ensures forall n | n in entries :: entries[n] == old(entries)[n] && Contents()[n] == old(Contents())[n]
      ensures forall n | n in old(entries) && old(entries)[n].at < now - ttl :: old(entries)[n].result.data == None
    {
      var cutoff := now - ttl;
      Forget(set n | n in entries && entries[n].at < cutoff);
    }
  }
}
