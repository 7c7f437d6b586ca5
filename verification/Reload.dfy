/** Loading the Grant Index again in the middle of a run: when nothing is lost by it, and what may be. */
module Reloads {
  import opened Options
  import opened Records
  import opened Entries
  import opened Relays
  import opened Rotation
  import opened Consoles
  import opened Lifecycle

  lemma IndexStays(me: Pub, events: seq<Event>, es: seq<Event>)
    requires OnePerSlot(events)
    requires forall e | e in es :: e.signed && ReplaceKey(e) != Some(IndexSlot(me))
    ensures OnePerSlot(PublishedAll(events, es)) && LoadIndex(PublishedAll(events, es), me) == LoadIndex(events, me)
  {
    SlotStays(events, es, IndexSlot(me));
  }

  lemma IndexSaved(me: Pub, events: seq<Event>, es: seq<Event>, ts: int, index: Index)
    requires OnePerSlot(events)
    requires forall e | e in es :: e.signed && ReplaceKey(e) != Some(IndexSlot(me))
    ensures LoadIndex(PublishedAll(events, es + [IndexEvent(me, ts, index)]), me) == index
  {
    hide Current, Published;
    IndexStays(me, events, es);
    OneMorePublish(events, es, IndexEvent(me, ts, index));
    PublishReplaces(PublishedAll(events, es), IndexEvent(me, ts, index), IndexSlot(me));
  }

  /** How a step of the delegator ended. */
  function Result(step: Step): Option<Outcome> {
    match step
    case Issue(_, _, _, _, _, _, _, r) => Some(r)
    case Add(_, _, _, _, _, r) => Some(r)
    case Rotate(_, _, _, _, _, r) => Some(r)
    case _ => None
  }

  /** The step recorded something in memory, and its save got lost. */
  ghost predicate Unsaved(w: World, step: Step, w': World) {
    w'.index != w.index && Result(step) != Some(Done)
  }

  /** A finished operation leaves its index on the relay; no other step touches the stored index. */
  lemma StepSaves(me: Pub, w: World, step: Step, w': World)
    requires Inv(me, w) && Next(me, w, step, w')
    ensures LoadIndex(w'.events, me) == if Result(step) == Some(Done) then w'.index else LoadIndex(w.events, me)
  {
    hide Inv, LoadIndex, PublishedAll, KeysBelow;
    assert OnePerSlot(w.events) by { WiredEvents(me, w); }
    match step
    case Issue(scope, name, agent, terms, data, at, ts, r) =>
      var entry := IssuedEntry(scope, name, 1, w.drawn, [agent]);
      var es := [SetEvent(me, scope, ts, 1, w.drawn, data), GrantEvent(agent, GrantOf(me, entry, Some(terms)))];
      IndexStays(me, w.events, []);
      IndexStays(me, w.events, [es[0]]);
      IndexStays(me, w.events, es);
      IndexSaved(me, w.events, es, ts + 1, IssuedIndex(w.index, entry, agent, terms, at));
    case Add(scope, pub, terms, at, ts, r) =>
      AddSaves(me, w, step, w');
    case Rotate(scope, drop, ts, make, answered, r) =>
      RotateSaves(me, w, step, w');
    case Notify(p, scope) =>
      IndexStays(me, w.events, [NoticeEvent(me, p, scope)]);
      PublishedOne(w.events, NoticeEvent(me, p, scope));
    case Refresh(_, _) =>
    case Dereference(_, _, _, _) =>
    case Elsewhere(e) =>
      IndexStays(me, w.events, [e]);
      PublishedOne(w.events, e);
  }

  lemma WiredEvents(me: Pub, w: World)
    requires Inv(me, w)
    ensures OnePerSlot(w.events)
  {
  }

  lemma AddSaves(me: Pub, w: World, step: Step, w': World)
    requires OnePerSlot(w.events) && step.Add? && Next(me, w, step, w')
    ensures LoadIndex(w'.events, me) == if step.r == Done then w'.index else LoadIndex(w.events, me)
  {
    hide LoadIndex, PublishedAll, KeysBelow;
    if step.scope in Scopes(w.index.issued) {
      var entry := w.index.issued[EntryAt(w.index.issued, step.scope)];
      var wrap := GrantEvent(step.pub, GrantOf(me, entry, Some(step.terms)));
      IndexStays(me, w.events, []);
      IndexStays(me, w.events, [wrap]);
      IndexSaved(me, w.events, [wrap], step.ts, AddedIndex(w.index, step.scope, step.pub, step.terms, step.at));
    }
  }

  lemma RotateSaves(me: Pub, w: World, step: Step, w': World)
    requires OnePerSlot(w.events) && step.Rotate? && Next(me, w, step, w')
    ensures LoadIndex(w'.events, me) == if step.r == Done then w'.index else LoadIndex(w.events, me)
  {
    hide LoadIndex, PublishedAll, KeysBelow, FetchScope, RotationEvents, AfterRotation;
    if step.scope in Scopes(w.index.issued) {
      var entry := w.index.issued[EntryAt(w.index.issued, step.scope)];
      match FetchAnswered(w.events, me, step.scope, entry.v, entry.key, step.answered)
      case Read(_, data) =>
        var es := RotationEvents(me, w.index, entry, step.drop, w.drawn, data, step.ts);
        RotationLeavesIndex(me, w.index, entry, step.drop, w.drawn, data, step.ts);
        if step.r.Broken? {
          IndexStays(me, w.events, es[..step.r.sent]);
        } else {
          IndexSaved(me, w.events, es, step.ts + 1, w'.index);
        }
      case _ =>
    }
  }

  lemma RotationLeavesIndex(me: Pub, index: Index, entry: IssuedEntry, drop: seq<Pub>, key: Key, data: Payload, ts: int)
    ensures forall e | e in RotationEvents(me, index, entry, drop, key, data, ts) ::
            ReplaceKey(e) != Some(IndexSlot(me))
  {
    var es := RotationEvents(me, index, entry, drop, key, data, ts);
    forall i | 0 <= i < |es|
      ensures ReplaceKey(es[i]) != Some(IndexSlot(me))
    {
      if i > 0 {
        assert es[i] == es[(i - 1) + 1];
      }
    }
  }

  /** Step `i` of a run recorded something whose save got lost. */
  ghost predicate SaveLost(ws: seq<World>, steps: seq<Step>, i: nat) {
    i < |steps| && i + 1 < |ws| && Unsaved(ws[i], steps[i], ws[i + 1])
  }

  /** Some operation finished after step `i` and before step `n`. */
  ghost predicate FinishedSince(steps: seq<Step>, i: nat, n: nat) {
    exists j :: i < j < n && j < |steps| && Result(steps[j]) == Some(Done)
  }

  // ---------------------------------------------------------------- an index never goes back

  /** One entry is at a later generation than another, or at the same one with more grantees. */
  ghost predicate Beyond(a: IssuedEntry, b: IssuedEntry) {
    a.v < b.v || (a.v == b.v && |a.grantees| < |b.grantees|)
  }

  ghost predicate NotBehind(a: IssuedEntry, b: IssuedEntry) {
    a.v < b.v || (a.v == b.v && |a.grantees| <= |b.grantees|)
  }

  /** `b` has every entry of `a`, and none of them is behind. */
  ghost predicate Follows(a: Index, b: Index) {
    |a.issued| <= |b.issued| && forall i | 0 <= i < |a.issued| :: NotBehind(a.issued[i], b.issued[i])
  }

  /** Besides, `b` has a further entry, or one that is ahead. */
  ghost predicate Outgrew(a: Index, b: Index) {
    && Follows(a, b)
    && (|a.issued| < |b.issued| || exists i :: 0 <= i < |a.issued| && Beyond(a.issued[i], b.issued[i]))
  }

  lemma FollowsOn(a: Index, b: Index, c: Index)
    requires Follows(a, b) && Follows(b, c)
    ensures Follows(a, c)
    ensures Outgrew(a, b) || Outgrew(b, c) ==> Outgrew(a, c)
  {
    if i :| 0 <= i < |b.issued| && Beyond(b.issued[i], c.issued[i]) {
      if i < |a.issued| {
        assert NotBehind(a.issued[i], b.issued[i]) && Beyond(a.issued[i], c.issued[i]);
      }
    }
    if i :| 0 <= i < |a.issued| && Beyond(a.issued[i], b.issued[i]) {
      assert NotBehind(b.issued[i], c.issued[i]) && Beyond(a.issued[i], c.issued[i]);
    }
  }

  /** A step leaves the index alone, or takes it further. */
  lemma StepGrows(me: Pub, w: World, step: Step, w': World)
    requires UniqueScopes(w.index.issued) && Next(me, w, step, w')
    ensures w'.index == w.index || Outgrew(w.index, w'.index)
  {
    hide LoadIndex, PublishedAll, KeysBelow, FetchAnswered, RotationEvents;
    if w'.index != w.index {
      var was, now := w.index.issued, w'.index.issued;
      if step.Issue? {
        assert |now| == |was| + 1 && forall j | 0 <= j < |was| :: now[j] == was[j];
      } else {
        var i := EntryAt(was, step.scope);
        if step.Rotate? {
          ReplacedOne(was, i, RotatedEntry(was[i], step.drop, w.drawn));
        }
        assert Beyond(was[i], now[i]);
        assert forall j | 0 <= j < |was| && j != i :: now[j] == was[j];
      }
    }
  }

  /** Over a run: loading the index again brings exactly what is in memory if and only if every operation whose save
      got lost is followed by a finished one. Otherwise what is loaded lags behind. */
  lemma {:induction false} ReloadIsLossless(me: Pub, ws: seq<World>, steps: seq<Step>, n: nat)
    requires Run(me, ws, steps) && n <= |steps|
    ensures LoadIndex(ws[n].events, me) == ws[n].index <==>
            forall i: nat | i < n && SaveLost(ws, steps, i) :: FinishedSince(steps, i, n)
    ensures LoadIndex(ws[n].events, me) == ws[n].index || Outgrew(LoadIndex(ws[n].events, me), ws[n].index)
    decreases n
  {
    hide Inv, Next, LoadIndex, TornScopes, BrokeOff, Follows, Beyond;
    if n == 0 {
      NothingSaved(me);
    } else {
      var m := n - 1;
      ReloadIsLossless(me, ws, steps, m);
      RunKeeps(me, ws, steps, m);
      assert UniqueScopes(ws[m].index.issued) by { ListedOnce(me, ws[m]); }
      StepSaves(me, ws[m], steps[m], ws[n]);
      StepGrows(me, ws[m], steps[m], ws[n]);
      if Result(steps[m]) == Some(Done) {
        assert forall i: nat | i < m :: FinishedSince(steps, i, n);
        assert !SaveLost(ws, steps, m);
      } else {
        SameFinishes(steps, m);
        Lags(LoadIndex(ws[m].events, me), ws[m].index, ws[n].index);
        assert !FinishedSince(steps, m, n);
        assert SaveLost(ws, steps, m) <==> ws[n].index != ws[m].index;
      }
    }
  }

  lemma ListedOnce(me: Pub, w: World)
    requires Inv(me, w)
    ensures UniqueScopes(w.index.issued)
  {
  }

  lemma SameFinishes(steps: seq<Step>, m: nat)
    requires m < |steps| && Result(steps[m]) != Some(Done)
    ensures forall i: nat :: FinishedSince(steps, i, m + 1) <==> FinishedSince(steps, i, m)
  {
  }

  /** The stored index stays while the one in memory moves on. */
  lemma Lags(stored: Index, before: Index, after: Index)
    requires stored == before || Outgrew(stored, before)
    requires after == before || Outgrew(before, after)
    ensures stored == before && after == before ==> stored == after
    ensures stored != before || after != before ==> stored != after && Outgrew(stored, after)
  {
    if stored != before && after != before {
      FollowsOn(stored, before, after);
    }
  }

  lemma NothingSaved(me: Pub)
    ensures LoadIndex([], me) == EMPTY_INDEX
  {
    CurrentIsStored([], IndexSlot(me));
  }

  /** What a reload may cost: a grantee was added, and the save got lost. The entry that is loaded does not list it, and
      it reads. */
  lemma UnsavedAddIsForgotten(me: Pub, w: World, step: Step, w': World, received: seq<Grant>)
    requires Inv(me, w) && LoadIndex(w.events, me) == w.index
    requires step.Add? && step.r == Broken(1) && Next(me, w, step, w') && Inbox(me, w'.events, step.pub, received)
    requires step.scope in Scopes(w.index.issued) && step.scope !in TornScopes(me, w)
    ensures LoadIndex(w'.events, me) == w.index
    ensures step.pub !in w.index.issued[EntryAt(w.index.issued, step.scope)].grantees
    ensures CanRead(me, w'.events, received, step.scope)
  {
    hide Inv, LoadIndex, PublishedAll, KeysBelow, CanRead, Torn, Synced, TornScopes;
    var i := EntryAt(w.index.issued, step.scope);
    var entry := w.index.issued[i];
    var wrap := GrantEvent(step.pub, GrantOf(me, entry, Some(step.terms)));
    assert OnePerSlot(w.events) by { WiredEvents(me, w); }
    IndexStays(me, w.events, [wrap]);
    NextKeeps(me, w, step, w');
    var e' := w'.index.issued[i];
    assert e' in w'.index.issued && step.pub in e'.grantees && e'.scope == step.scope;
    Whole(me, w', e');
    EntryIsTruth(me, w', e', step.pub, received);
  }

  lemma Whole(me: Pub, w: World, e: IssuedEntry)
    requires Inv(me, w) && e in w.index.issued && e.scope !in TornScopes(me, w)
    ensures Synced(w.events, me, e)
  {
  }
}
