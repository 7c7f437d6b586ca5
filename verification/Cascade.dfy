/** mcp/src/subgrants.ts, `cascadeDerivedRevocation`: severing every descendant of a revoked parent. */
module Cascades {
  import opened Options
  import opened Sequences
  import opened Records
  import opened Entries
  import opened Relays
  import opened Lineage

  function NotAmong(gone: set<ScopeId>): IssuedEntry -> bool {
    (e: IssuedEntry) => e.scope !in gone
  }

  function WithoutScopes(issued: seq<IssuedEntry>, gone: set<ScopeId>): seq<IssuedEntry> {
    Filter(NotAmong(gone), issued)
  }

  /** The child scopes of the rows that `after` severs. */
  ghost function SeveredScopes(before: seq<DerivedChild>, after: seq<DerivedChild>): set<ScopeId> {
    set i: nat | i < |before| && Newly(before, after, i) :: before[i].child.scope
  }

  lemma {:induction false} WithoutTwice(issued: seq<IssuedEntry>, a: set<ScopeId>, b: set<ScopeId>)
    ensures WithoutScopes(WithoutScopes(issued, a), b) == WithoutScopes(issued, a + b)
  {
    if issued != [] {
      WithoutTwice(issued[1..], a, b);
      var kept := WithoutScopes(issued[1..], a);
      assert ([issued[0]] + kept)[1..] == kept;
    }
  }

  lemma UniqueTail(issued: seq<IssuedEntry>)
    requires UniqueScopes(issued) && issued != []
    ensures UniqueScopes(issued[1..])
    ensures forall e | e in issued[1..] :: e.scope != issued[0].scope
  {
  }

  lemma WithoutHead(issued: seq<IssuedEntry>, gone: set<ScopeId>)
    requires issued != []
    ensures issued[0].scope !in gone ==> WithoutScopes(issued, gone) == [issued[0]] + WithoutScopes(issued[1..], gone)
    ensures issued[0].scope in gone && (forall e | e in issued[1..] :: e.scope !in gone) ==>
            WithoutScopes(issued, gone) == issued[1..]
  {
  }

  lemma {:induction false} WithoutOne(issued: seq<IssuedEntry>, i: nat)
    requires UniqueScopes(issued) && i < |issued|
    ensures issued[..i] + issued[i + 1..] == WithoutScopes(issued, {issued[i].scope})
  {
    hide UniqueScopes, WithoutScopes;
    UniqueTail(issued);
    var tail := issued[1..];
    WithoutHead(issued, {issued[i].scope});
    if i > 0 {
      assert tail[i - 1] == issued[i] && tail[i - 1] in tail;
      WithoutOne(tail, i - 1);
      assert issued[..i] + issued[i + 1..] == [issued[0]] + (tail[..i - 1] + tail[i..]);
    }
  }

  lemma NothingToDrop(issued: seq<IssuedEntry>, scope: ScopeId)
    requires scope !in Scopes(issued)
    ensures WithoutScopes(issued, {scope}) == issued
  {
    assert forall e | e in issued :: e.scope in Scopes(issued);
  }

  lemma {:induction false} WithoutUnique(issued: seq<IssuedEntry>, gone: set<ScopeId>)
    requires UniqueScopes(issued)
    ensures UniqueScopes(WithoutScopes(issued, gone))
  {
    if issued != [] {
      WithoutUnique(issued[1..], gone);
      assert forall e | e in WithoutScopes(issued[1..], gone) :: e in issued[1..] && e.scope != issued[0].scope;
    }
  }

  /** What was cut is no longer issued, and what is left was issued before. */
  lemma LeftApart(issued: seq<IssuedEntry>, gone: set<ScopeId>, cut: set<ScopeId>)
    requires cut <= gone
    ensures cut !! Scopes(WithoutScopes(issued, gone))
    ensures Scopes(WithoutScopes(issued, gone)) == Scopes(issued) - gone
    ensures forall e | e in WithoutScopes(issued, gone) :: e in issued
  {
  }

  lemma WithoutScopesAre(issued: seq<IssuedEntry>, gone: set<ScopeId>)
    ensures Scopes(WithoutScopes(issued, gone)) == Scopes(issued) - gone
  {
  }

  /** Scope `entry.scope` now holds an empty document, at the generation after the issued one, under a key nobody
      holds. */
  ghost predicate Cut(events: seq<Event>, issuer: Pub, entry: IssuedEntry, drawn: nat) {
    match Current(events, DataSlot(issuer, entry.scope))
    case Some(Event(_, _, _, _, _, SealedSet(v, key, data))) =>
      v > entry.v && (entry.v != 0 ==> v == entry.v + 1) && key >= drawn && data == Empty
    case _ => false
  }

  ghost predicate NoticesStay(before: seq<Event>, after: seq<Event>, issuer: Pub) {
    forall to, scope | NoticeEvent(issuer, to, scope) in before :: NoticeEvent(issuer, to, scope) in after
  }

  /** From `before` to `after` exactly the scopes in `cut` were overwritten, and each of them is severed. */
  ghost predicate CutsOnly(before: seq<Event>, after: seq<Event>, issuer: Pub, issued: seq<IssuedEntry>, drawn: nat,
                           cut: set<ScopeId>) {
    && OnePerSlot(after)
    && SameGrants(before, after) && NoticesStay(before, after, issuer)
    && cut <= Scopes(issued)
    && (forall slot: Slot | slot.kind != KIND_DATA_SET || slot.pubkey != issuer || slot.d !in cut ::
          Current(after, slot) == Current(before, slot))
    && (forall e | e in issued && e.scope in cut :: Cut(after, issuer, e, drawn))
  }

  lemma PublishCut(events: seq<Event>, issuer: Pub, entry: IssuedEntry, issued: seq<IssuedEntry>, ts: int, v: nat,
                   key: Key, drawn: nat)
    requires OnePerSlot(events) && UniqueScopes(issued) && entry in issued && key >= drawn
    requires v > entry.v && (entry.v != 0 ==> v == entry.v + 1)
    ensures CutsOnly(events, Published(events, SetEvent(issuer, entry.scope, ts, v, key, Empty)), issuer, issued,
                     drawn, {entry.scope})
  {
    hide Current, Published;
    var e := SetEvent(issuer, entry.scope, ts, v, key, Empty);
    PublishKeepsSlots(events, e);
    assert Scopes([entry]) <= Scopes(issued);
    assert forall x | x in issued && x.scope == entry.scope :: x == entry;
    forall slot
      ensures Current(Published(events, e), slot) ==
              if slot == DataSlot(issuer, entry.scope) then Some(e) else Current(events, slot)
    {
      PublishReplaces(events, e, slot);
    }
  }

  /** The scope's data set is an empty document of this generation. */
  ghost predicate Emptied(events: seq<Event>, issuer: Pub, scope: ScopeId, v: nat) {
    HasData(events, issuer, scope) && DataAt(events, issuer, scope).v == v
        && DataAt(events, issuer, scope).data == Empty
  }

  lemma EmptiedAt(events: seq<Event>, issuer: Pub, scope: ScopeId, ts: int, v: nat, key: Key)
    requires OnePerSlot(events)
    ensures Emptied(Published(events, SetEvent(issuer, scope, ts, v, key, Empty)), issuer, scope, v)
  {
    hide Current, Published;
    PublishReplaces(events, SetEvent(issuer, scope, ts, v, key, Empty), DataSlot(issuer, scope));
  }

  lemma PublishNotice(before: seq<Event>, events: seq<Event>, issuer: Pub, issued: seq<IssuedEntry>, drawn: nat,
                      cut: set<ScopeId>, to: Pub, scope: ScopeId)
    requires OnePerSlot(events) && CutsOnly(before, events, issuer, issued, drawn, cut)
    ensures CutsOnly(before, Published(events, NoticeEvent(issuer, to, scope)), issuer, issued, drawn, cut)
    ensures NoticeEvent(issuer, to, scope) in Published(events, NoticeEvent(issuer, to, scope))
    ensures forall s, v | Emptied(events, issuer, s, v) ::
            Emptied(Published(events, NoticeEvent(issuer, to, scope)), issuer, s, v)
  {
    hide Current, Published;
    var e := NoticeEvent(issuer, to, scope);
    PublishKeepsSlots(events, e);
    forall slot
      ensures Current(Published(events, e), slot) == Current(events, slot)
    {
      PublishReplaces(events, e, slot);
    }
  }

  lemma NothingCut(events: seq<Event>, issuer: Pub, issued: seq<IssuedEntry>, drawn: nat)
    requires OnePerSlot(events)
    ensures CutsOnly(events, events, issuer, issued, drawn, {})
  {
  }

  lemma CutsKeepNotices(before: seq<Event>, after: seq<Event>, issuer: Pub, issued: seq<IssuedEntry>, drawn: nat,
                        cut: set<ScopeId>)
    requires CutsOnly(before, after, issuer, issued, drawn, cut)
    ensures NoticesStay(before, after, issuer)
  {
  }

  /** Cuts made one after the other, the second among what the first left issued. */
  lemma CutsCompose(before: seq<Event>, middle: seq<Event>, after: seq<Event>, issuer: Pub,
                    issued: seq<IssuedEntry>, left: seq<IssuedEntry>, drawn: nat, drawnLater: nat,
                        a: set<ScopeId>, b: set<ScopeId>)
    requires CutsOnly(before, middle, issuer, issued, drawn, a)
    requires CutsOnly(middle, after, issuer, left, drawnLater, b)
    requires drawn <= drawnLater && a !! Scopes(left) && UniqueScopes(issued)
    requires forall e | e in left :: e in issued
    ensures CutsOnly(before, after, issuer, issued, drawn, a + b)
  {
    forall e | e in issued && e.scope in a + b
      ensures Cut(after, issuer, e, drawn)
    {
      if e.scope in b {
        var e' :| e' in left && e'.scope == e.scope;
        assert e' == e;
      } else {
        assert Current(after, DataSlot(issuer, e.scope)) == Current(middle, DataSlot(issuer, e.scope));
      }
    }
  }

  /** The rows that `filter` selects, as positions. */
  function Selected(rows: seq<DerivedChild>, publisher: Pub, scope: ScopeId, generation: nat, from: nat): (r: seq<nat>)
    requires from <= |rows|
    ensures forall i: nat ::
            i in r <==> from <= i < |rows| && rows[i].state.Live? && Under(rows[i], publisher, scope, generation)
    decreases |rows| - from
  {
    if from == |rows| then []
    else
      var rest := Selected(rows, publisher, scope, generation, from + 1);
      var parent := rows[from].parent;
      if rows[from].state.Live? && parent.publisher == publisher && parent.scope == scope
         && parent.generation <= generation
      then [from] + rest else rest
  }

  ghost function LiveRows(rows: seq<DerivedChild>): set<nat> {
    set i: nat | i < |rows| && rows[i].state.Live?
  }

  lemma SeveredCompose(before: seq<DerivedChild>, middle: seq<DerivedChild>, after: seq<DerivedChild>)
    requires OnlySevers(before, middle) && OnlySevers(middle, after)
    ensures OnlySevers(before, after)
    ensures SeveredScopes(before, after) == SeveredScopes(before, middle) + SeveredScopes(middle, after)
  {
  }

  /** Only rows below (publisher, scope, generation) were severed. */
  ghost predicate Touches(issuer: Pub, before: seq<DerivedChild>, after: seq<DerivedChild>, publisher: Pub,
                          scope: ScopeId, generation: nat) {
    && OnlySevers(before, after)
    && forall j: nat | Newly(before, after, j) :: Descends(before, issuer, publisher, scope, generation, j)
  }

  /** No row below (publisher, scope, generation) is left. */
  ghost predicate Finishes(issuer: Pub, before: seq<DerivedChild>, after: seq<DerivedChild>, publisher: Pub,
                           scope: ScopeId, generation: nat)
    requires |before| == |after|
  {
    && Closed(issuer, before, after)
    && forall j: nat | j < |after| && Under(after[j], publisher, scope, generation) :: after[j].state.Severed?
  }

  ghost predicate TouchesRow(issuer: Pub, before: seq<DerivedChild>, after: seq<DerivedChild>, i: nat)
    requires i < |before|
  {
    && OnlySevers(before, after)
    && forall j: nat | Newly(before, after, j) && j != i ::
         Descends(before, issuer, issuer, before[i].child.scope, before[i].child.generation, j)
  }

  ghost predicate FinishesRow(issuer: Pub, before: seq<DerivedChild>, after: seq<DerivedChild>, i: nat)
    requires i < |before| == |after|
  {
    && after[i].state.Severed?
    && Finishes(issuer, before, after, issuer, before[i].child.scope, before[i].child.generation)
  }

  /** The scopes that go when row `i` is severed and then what hangs below it. */
  ghost function GoneWith(before: seq<DerivedChild>, after: seq<DerivedChild>, i: nat): set<ScopeId>
    requires i < |before|
  {
    {before[i].child.scope} + SeveredScopes(before[i := before[i].(state := Severed)], after)
  }

  /** Row `j` is about scope `s`, and, if it is `told`, its holder got the notice. */
  ghost predicate Tells(issuer: Pub, rows: seq<DerivedChild>, events: seq<Event>, told: bool, j: nat, s: ScopeId) {
    && j < |rows| && rows[j].child.scope == s
    && (told ==> NoticeEvent(issuer, rows[j].child.grantee, s) in events)
  }

  /** Every scope in `cut` is that of a descendant, whose holder was `told`. */
  ghost predicate CutFrom(issuer: Pub, rows: seq<DerivedChild>, publisher: Pub, scope: ScopeId, generation: nat,
                          cut: set<ScopeId>, events: seq<Event>, told: bool) {
    forall s | s in cut ::
        exists j: nat ::
            Descends(rows, issuer, publisher, scope, generation, j) && Tells(issuer, rows, events, told, j, s)
  }

  /** Every scope in `cut` is that of row `i` or of a row below it. */
  ghost predicate CutFromRow(issuer: Pub, rows: seq<DerivedChild>, i: nat, cut: set<ScopeId>, events: seq<Event>,
                             told: bool)
    requires i < |rows|
  {
    forall s | s in cut ::
        exists j: nat ::
            && (j == i || Descends(rows, issuer, issuer, rows[i].child.scope, rows[i].child.generation, j))
            && Tells(issuer, rows, events, told, j, s)
  }

  /** A chain of rows that are live later is a chain of rows that were live before. */
  lemma EarlierChains(rows: seq<DerivedChild>, later: seq<DerivedChild>, issuer: Pub, publisher: Pub, scope: ScopeId,
                      generation: nat)
    requires OnlySevers(rows, later)
    ensures forall i: nat | Descends(later, issuer, publisher, scope, generation, i) ::
            Descends(rows, issuer, publisher, scope, generation, i)
  {
  }

  lemma RowThenBelow(issuer: Pub, before: seq<DerivedChild>, after: seq<DerivedChild>, i: nat, cut1: set<ScopeId>,
                     cut2: set<ScopeId>, events1: seq<Event>, events: seq<Event>, ok: bool)
    requires i < |before| && cut1 <= {before[i].child.scope}
    requires forall s | s in cut1 :: Tells(issuer, before, events1, true, i, s)
    requires NoticesStay(events1, events, issuer)
    requires var middle := before[i := before[i].(state := Severed)]; var c := before[i].child;
             && Touches(issuer, middle, after, issuer, c.scope, c.generation)
             && CutFrom(issuer, middle, issuer, c.scope, c.generation, cut2, events, ok)
             && (ok ==> Finishes(issuer, middle, after, issuer, c.scope, c.generation))
    ensures TouchesRow(issuer, before, after, i) && CutFromRow(issuer, before, i, cut1 + cut2, events, ok)
    ensures after[i].state.Severed?
    ensures ok ==> FinishesRow(issuer, before, after, i)
  {
    var c, middle := before[i].child, before[i := before[i].(state := Severed)];
    EarlierChains(before, middle, issuer, issuer, c.scope, c.generation);
    assert forall j: nat | Newly(before, after, j) && j != i :: Newly(middle, after, j);
    forall s | s in cut1 + cut2
      ensures exists j: nat ::
                && (j == i || Descends(before, issuer, issuer, c.scope, c.generation, j))
                && Tells(issuer, before, events, ok, j, s)
    {
      if s in cut1 {
        assert Tells(issuer, before, events, ok, i, s);
      } else {
        var j: nat :|
            Descends(middle, issuer, issuer, c.scope, c.generation, j) && Tells(issuer, middle, events, ok, j, s);
        assert Tells(issuer, before, events, ok, j, s);
      }
    }
  }

  /** What hangs below row `i` hangs below whatever row `i` hangs under. */
  lemma BelowRow(issuer: Pub, before: seq<DerivedChild>, middle: seq<DerivedChild>, publisher: Pub, scope: ScopeId,
                 generation: nat, i: nat)
    requires OnlySevers(before, middle)
    requires i < |before| && before[i].state.Live? && Under(before[i], publisher, scope, generation)
    ensures Descends(before, issuer, publisher, scope, generation, i)
    ensures forall j: nat | Descends(middle, issuer, issuer, before[i].child.scope, before[i].child.generation, j) ::
              Descends(before, issuer, publisher, scope, generation, j)
  {
    ChainUnder(before, issuer, publisher, scope, generation, i);
    forall j: nat | Descends(middle, issuer, issuer, before[i].child.scope, before[i].child.generation, j)
      ensures Descends(before, issuer, publisher, scope, generation, j)
    {
      ChainThrough(before, middle, issuer, publisher, scope, generation, i, j);
    }
  }

  lemma TouchesThenRow(issuer: Pub, before: seq<DerivedChild>, middle: seq<DerivedChild>, after: seq<DerivedChild>,
                       publisher: Pub, scope: ScopeId, generation: nat, i: nat)
    requires Touches(issuer, before, middle, publisher, scope, generation)
    requires i < |before| && before[i].state.Live? && Under(before[i], publisher, scope, generation)
    requires TouchesRow(issuer, middle, after, i)
    ensures Touches(issuer, before, after, publisher, scope, generation)
  {
    BelowRow(issuer, before, middle, publisher, scope, generation, i);
    assert forall j: nat | Newly(before, after, j) :: Newly(before, middle, j) || Newly(middle, after, j);
  }

  lemma ClosedThenRow(issuer: Pub, before: seq<DerivedChild>, middle: seq<DerivedChild>, after: seq<DerivedChild>,
                      i: nat)
    requires OnlySevers(before, middle) && Closed(issuer, before, middle)
    requires i < |before| && OnlySevers(middle, after) && FinishesRow(issuer, middle, after, i)
    ensures Closed(issuer, before, after)
  {
  }

  lemma CutFromThenRow(issuer: Pub, before: seq<DerivedChild>, middle: seq<DerivedChild>,
                       publisher: Pub, scope: ScopeId, generation: nat, i: nat, cut1: set<ScopeId>, cut2: set<ScopeId>,
                       events1: seq<Event>, events: seq<Event>, ok: bool)
    requires OnlySevers(before, middle) && NoticesStay(events1, events, issuer)
    requires i < |before| && before[i].state.Live? && Under(before[i], publisher, scope, generation)
    requires CutFrom(issuer, before, publisher, scope, generation, cut1, events1, true)
    requires CutFromRow(issuer, middle, i, cut2, events, ok)
    ensures CutFrom(issuer, before, publisher, scope, generation, cut1 + cut2, events, ok)
  {
    BelowRow(issuer, before, middle, publisher, scope, generation, i);
    var c := before[i].child;
    forall s | s in cut1 + cut2
      ensures exists j: nat :: Descends(before, issuer, publisher, scope, generation, j)
                && Tells(issuer, before, events, ok, j, s)
    {
      if s in cut1 {
        var j: nat :|
            Descends(before, issuer, publisher, scope, generation, j) && Tells(issuer, before, events1, true, j, s);
        assert Tells(issuer, before, events, ok, j, s);
      } else {
        var j: nat :| (j == i || Descends(middle, issuer, issuer, c.scope, c.generation, j))
                        && Tells(issuer, middle, events, ok, j, s);
        assert Tells(issuer, before, events, ok, j, s);
      }
    }
  }

  /** What the loop of `revokeChildren` has done so far. */
  datatype Progress = Progress(rows: seq<DerivedChild>, issued: seq<IssuedEntry>, events: seq<Event>, drawn: nat)

  ghost predicate Steady(issuer: Pub, start: Progress, now: Progress, publisher: Pub, scope: ScopeId, generation: nat,
                         cut: set<ScopeId>, told: bool) {
    && UniqueScopes(start.issued) && start.drawn <= now.drawn
    && Touches(issuer, start.rows, now.rows, publisher, scope, generation)
    && CutsOnly(start.events, now.events, issuer, start.issued, start.drawn, cut)
    && CutFrom(issuer, start.rows, publisher, scope, generation, cut, now.events, told)
  }

  ghost predicate Settled(issuer: Pub, start: Progress, now: Progress, cut: set<ScopeId>)
    requires |start.rows| == |now.rows|
  {
    && Closed(issuer, start.rows, now.rows)
    && now.issued == WithoutScopes(start.issued, SeveredScopes(start.rows, now.rows))
    && cut == Scopes(start.issued) * SeveredScopes(start.rows, now.rows)
  }

  lemma AtTheStart(issuer: Pub, start: Progress, publisher: Pub, scope: ScopeId, generation: nat)
    requires UniqueScopes(start.issued) && OnePerSlot(start.events)
    ensures Steady(issuer, start, start, publisher, scope, generation, {}, true)
    ensures Settled(issuer, start, start, {})
  {
  }

  lemma LoopStep(issuer: Pub, start: Progress, mid: Progress, now: Progress, publisher: Pub, scope: ScopeId,
                 generation: nat, i: nat, cut1: set<ScopeId>, cut2: set<ScopeId>, ok: bool)
    requires Steady(issuer, start, mid, publisher, scope, generation, cut1, true) && Settled(issuer, start, mid, cut1)
    requires i < |start.rows| && start.rows[i].state.Live? && Under(start.rows[i], publisher, scope, generation)
    requires TouchesRow(issuer, mid.rows, now.rows, i) && mid.drawn <= now.drawn
    requires CutsOnly(mid.events, now.events, issuer, mid.issued, mid.drawn, cut2)
    requires CutFromRow(issuer, mid.rows, i, cut2, now.events, ok)
    ensures Steady(issuer, start, now, publisher, scope, generation, cut1 + cut2, ok)
  {
    WithoutScopesAre(start.issued, SeveredScopes(start.rows, mid.rows));
    CutsCompose(start.events, mid.events, now.events, issuer, start.issued, mid.issued, start.drawn, mid.drawn, cut1,
                cut2);
    TouchesThenRow(issuer, start.rows, mid.rows, now.rows, publisher, scope, generation, i);
    CutFromThenRow(issuer, start.rows, mid.rows, publisher, scope, generation, i, cut1, cut2, mid.events, now.events,
                   ok);
  }

  lemma LoopStepSettles(issuer: Pub, start: Progress, mid: Progress, now: Progress, i: nat, cut1: set<ScopeId>,
                        cut2: set<ScopeId>)
    requires OnlySevers(start.rows, mid.rows) && Settled(issuer, start, mid, cut1)
    requires i < |start.rows| && start.rows[i].state.Live?
    requires OnlySevers(mid.rows, now.rows) && FinishesRow(issuer, mid.rows, now.rows, i)
    requires now.issued == WithoutScopes(mid.issued, GoneWith(mid.rows, now.rows, i))
    requires cut2 == Scopes(mid.issued) * GoneWith(mid.rows, now.rows, i)
    ensures OnlySevers(start.rows, now.rows) && Settled(issuer, start, now, cut1 + cut2)
  {
    ClosedThenRow(issuer, start.rows, mid.rows, now.rows, i);
    GoneCompose(start.rows, mid.rows, now.rows, i);
    WithoutScopesAre(start.issued, SeveredScopes(start.rows, mid.rows));
    WithoutTwice(start.issued, SeveredScopes(start.rows, mid.rows), GoneWith(mid.rows, now.rows, i));
  }

  lemma GoneCompose(before: seq<DerivedChild>, middle: seq<DerivedChild>, after: seq<DerivedChild>, i: nat)
    requires OnlySevers(before, middle) && OnlySevers(middle, after)
    requires i < |before| && before[i].state.Live? && after[i].state.Severed?
    ensures SeveredScopes(before, after) == SeveredScopes(before, middle) + GoneWith(middle, after, i)
  {
    var tomb := middle[i := middle[i].(state := Severed)];
    SeveredCompose(before, middle, after);
    SeveredCompose(middle, tomb, after);
    assert Newly(before, after, i);
    assert before[i].child.scope in SeveredScopes(before, after);
    forall s | s in SeveredScopes(middle, tomb)
      ensures s == before[i].child.scope
    {
    }
  }

  ghost predicate AllSevered(rows: seq<DerivedChild>, list: seq<nat>) {
    forall n | 0 <= n < |list| :: list[n] < |rows| && rows[list[n]].state.Severed?
  }

  lemma OneMoreSevered(before: seq<DerivedChild>, after: seq<DerivedChild>, list: seq<nat>, k: nat)
    requires k < |list| && AllSevered(before, list[..k]) && OnlySevers(before, after)
    requires list[k] < |after| && after[list[k]].state.Severed?
    ensures AllSevered(after, list[..k + 1])
  {
  }

  lemma AllSelectedSevered(before: seq<DerivedChild>, after: seq<DerivedChild>, publisher: Pub, scope: ScopeId,
                           generation: nat, list: seq<nat>)
    requires OnlySevers(before, after) && list == Selected(before, publisher, scope, generation, 0)
    requires AllSevered(after, list)
    ensures forall j: nat | j < |after| && Under(after[j], publisher, scope, generation) :: after[j].state.Severed?
  {
  }

  /** The locals that `revokeChildren` closes over. */
  class Cascade {
    const relay: Relay
    const issuer: Pub
    var rows: seq<DerivedChild>
    var issued: seq<IssuedEntry>
    var cascaded: nat
    var drawn: nat

    constructor (relay: Relay, issuer: Pub, rows: seq<DerivedChild>, issued: seq<IssuedEntry>, drawn: nat)
      ensures this.relay == relay && this.issuer == issuer && this.rows == rows && this.issued == issued
      ensures this.cascaded == 0 && this.drawn == drawn
    {
      this.relay, this.issuer, this.rows, this.issued := relay, issuer, rows, issued;
      this.cascaded, this.drawn := 0, drawn;
    }

    ghost predicate Valid()
      reads this, relay
    {
      UniqueScopes(issued) && OnePerSlot(relay.events) && KeysBelow(relay.events, drawn)
    }

    ghost function Now(): Progress
      reads this, relay
    {
      Progress(rows, issued, relay.events, drawn)
    }

    /** Overwrite a scope that is still issued: an empty document, one generation on, under a new key. */
    method EmptyScope(entry: IssuedEntry, child: ChildRef) returns (ok: bool)
      requires Valid() && entry in issued && entry.scope == child.scope
      modifies this`drawn, relay
      ensures Valid() && old(drawn) <= drawn && (ok || relay.LastLost())
      ensures CutsOnly(old(relay.events), relay.events, issuer, issued, old(drawn), if ok then {child.scope} else {})
      ensures ok ==> Emptied(relay.events, issuer, child.scope, 1 + if entry.v != 0 then entry.v else child.generation)
    {
      hide Current, Cut, Published;
      NothingCut(relay.events, issuer, issued, drawn);
      var key := drawn;
      drawn := drawn + 1;
      var next := (if entry.v != 0 then entry.v else child.generation) + 1;
      var ts: int := *;
      PublishKeepsKeys(relay.events, SetEvent(issuer, child.scope, ts, next, key, Empty), key, drawn);
      PublishCut(relay.events, issuer, entry, issued, ts, next, key, key);
      EmptiedAt(relay.events, issuer, child.scope, ts, next, key);
      ok := relay.Publish(SetEvent(issuer, child.scope, ts, next, key, Empty));
    }

    /** Tell the holder of an emptied scope. */
    method Notify(to: Pub, scope: ScopeId, ghost before: seq<Event>, ghost drawn0: nat, ghost cut: set<ScopeId>)
      returns (ok: bool)
      requires Valid() && CutsOnly(before, relay.events, issuer, issued, drawn0, cut)
      modifies relay
      ensures Valid() && CutsOnly(before, relay.events, issuer, issued, drawn0, cut) && (ok || relay.LastLost())
      ensures forall s, v | Emptied(old(relay.events), issuer, s, v) :: Emptied(relay.events, issuer, s, v)
      ensures ok ==> NoticeEvent(issuer, to, scope) in relay.events
    {
      hide Emptied, CutsOnly, KeysBelow, UniqueScopes, OnePerSlot, Published;
      var notice := NoticeEvent(issuer, to, scope);
      PublishKeepsKeys(relay.events, notice, drawn, drawn);
      PublishKeepsSlots(relay.events, notice);
      PublishNotice(before, relay.events, issuer, issued, drawn0, cut, to, scope);
      ok := relay.Publish(notice);
    }

    /** Overwrite one child scope and notify its holder, if its key is still on record. */
    method SeverScope(row: DerivedChild) returns (ok: bool, ghost cut: set<ScopeId>)
      requires Valid()
      modifies this`issued, this`drawn, relay
      ensures Valid() && old(drawn) <= drawn && (ok || relay.LastLost())
      ensures CutsOnly(old(relay.events), relay.events, issuer, old(issued), old(drawn), cut)
      ensures cut <= {row.child.scope}
      ensures ok ==> issued == WithoutScopes(old(issued), {row.child.scope})
      ensures ok ==> cut == Scopes(old(issued)) * {row.child.scope}
      ensures ok && cut != {} ==> NoticeEvent(issuer, row.child.grantee, row.child.scope) in relay.events
      ensures cut != {} ==>
                var e := old(issued)[EntryAt(old(issued), row.child.scope)];
                Emptied(relay.events, issuer, row.child.scope, 1 + if e.v != 0 then e.v else row.child.generation)
    {
      hide Current, Cut, Published, WithoutScopes, Emptied, CutsOnly, KeysBelow, UniqueScopes, OnePerSlot;
      cut := {};
      NothingCut(relay.events, issuer, issued, drawn);
      var at := EntryAt(issued, row.child.scope);
      if at < |issued| {
        var entry := issued[at];
        ok := EmptyScope(entry, row.child);
        if !ok { return; }
        cut := {row.child.scope};
        ok := Notify(row.child.grantee, row.child.scope, old(relay.events), old(drawn), cut);
        if !ok { return; }
        WithoutOne(issued, at);
        WithoutUnique(issued, {row.child.scope});
        issued := issued[..at] + issued[at + 1..];
      } else {
        ok := true;
        NothingToDrop(issued, row.child.scope);
      }
    }

    /** One turn of the loop: cut the row's scope, make the row a tombstone, go on below it. */
    method RevokeRow(i: nat) returns (ok: bool, ghost cut: set<ScopeId>)
      requires Valid() && i < |rows|
      modifies this`rows, this`issued, this`cascaded, this`drawn, relay
      ensures Valid() && old(drawn) <= drawn && (ok || relay.LastLost())
      ensures TouchesRow(issuer, old(rows), rows, i)
      ensures ok ==> FinishesRow(issuer, old(rows), rows, i)
      ensures if rows == old(rows) && !ok then cascaded >= old(cascaded) else cascaded > old(cascaded)
      ensures cascaded > old(cascaded) ==> rows[i].state.Severed?
      ensures ok ==> issued == WithoutScopes(old(issued), GoneWith(old(rows), rows, i))
      ensures ok ==> cut == Scopes(old(issued)) * GoneWith(old(rows), rows, i)
      ensures CutsOnly(old(relay.events), relay.events, issuer, old(issued), old(drawn), cut)
      ensures CutFromRow(issuer, old(rows), i, cut, relay.events, ok)
      decreases LiveRows(rows) - {i}, 2
    {
      hide CutsOnly, WithoutScopes, Closed, Descends, Scopes, KeysBelow, OnePerSlot, UniqueScopes;
      ghost var rows0, issued0, events0, drawn0 := rows, issued, relay.events, drawn;
      var row := rows[i];
      ok, cut := SeverScope(row);
      assert forall s | s in cut :: Tells(issuer, rows0, relay.events, ok, i, s);
      if !ok { return; }
      ghost var issued1, events1, drawn1, cut1 := issued, relay.events, drawn, cut;
      rows := rows[i := row.(state := Severed)];
      cascaded := cascaded + 1;
      ghost var rows1 := rows;
      ghost var cut2: set<ScopeId>;
      assert LiveRows(rows1) == LiveRows(rows0) - {i};
      ok, cut2 := RevokeChildren(issuer, row.child.scope, row.child.generation);
      cut := cut1 + cut2;
      LeftApart(issued0, {row.child.scope}, cut1);
      CutsCompose(events0, events1, relay.events, issuer, issued0, issued1, drawn0, drawn1, cut1, cut2);
      CutsKeepNotices(events1, relay.events, issuer, issued1, drawn1, cut2);
      RowThenBelow(issuer, rows0, rows, i, cut1, cut2, events1, relay.events, ok);
      if ok {
        WithoutTwice(issued0, {row.child.scope}, SeveredScopes(rows1, rows));
      }
    }

    /** `revokeChildren`: every live row under (publisher, scope, generation), and all that hangs below. */
    method RevokeChildren(publisher: Pub, scope: ScopeId, generation: nat) returns (ok: bool, ghost cut: set<ScopeId>)
      requires Valid()
      modifies this`rows, this`issued, this`cascaded, this`drawn, relay
      ensures Valid() && old(drawn) <= drawn && (ok || relay.LastLost())
      ensures Touches(issuer, old(rows), rows, publisher, scope, generation)
      ensures ok ==> Finishes(issuer, old(rows), rows, publisher, scope, generation)
      ensures if rows == old(rows) then cascaded >= old(cascaded) else cascaded > old(cascaded)
      ensures ok ==> (cascaded == old(cascaded) <==> rows == old(rows))
      ensures ok ==> issued == WithoutScopes(old(issued), SeveredScopes(old(rows), rows))
      ensures ok ==> cut == Scopes(old(issued)) * SeveredScopes(old(rows), rows)
      ensures CutsOnly(old(relay.events), relay.events, issuer, old(issued), old(drawn), cut)
      ensures CutFrom(issuer, old(rows), publisher, scope, generation, cut, relay.events, ok)
      ensures Selected(old(rows), publisher, scope, generation, 0) == [] ==>
                ok && cascaded == old(cascaded) && relay.events == old(relay.events)
      decreases LiveRows(rows), 1
    {
      hide CutsOnly, WithoutScopes, CutFrom, Descends, Scopes, KeysBelow, OnePerSlot, UniqueScopes;
      ghost var start := Now();
      var list := Selected(rows, publisher, scope, generation, 0);
      ok, cut := true, {};
      AtTheStart(issuer, start, publisher, scope, generation);
      var k := 0;
      while k < |list|
        invariant 0 <= k <= |list| && ok && Valid()
        invariant Steady(issuer, start, Now(), publisher, scope, generation, cut, true)
        invariant Settled(issuer, start, Now(), cut)
        invariant AllSevered(rows, list[..k])
        invariant k == 0 ==> relay.events == old(relay.events)
        invariant if k == 0 then cascaded == old(cascaded) && rows == start.rows
                  else cascaded > old(cascaded) && rows != start.rows
      {
        assert list[k] in list;
        ghost var before := rows;
        ok, cut := VisitRow(list[k], start, publisher, scope, generation, cut);
        if !ok { return; }
        OneMoreSevered(before, rows, list, k);
        k := k + 1;
      }
      assert list[..k] == list;
      AllSelectedSevered(start.rows, rows, publisher, scope, generation, list);
    }

    /** The loop body, seen from the start of the loop. */
    method VisitRow(i: nat, ghost start: Progress, ghost publisher: Pub, ghost scope: ScopeId, ghost generation: nat,
                    ghost cut1: set<ScopeId>)
      returns (ok: bool, ghost cut: set<ScopeId>)
      requires Valid()
      requires Steady(issuer, start, Now(), publisher, scope, generation, cut1, true)
      requires Settled(issuer, start, Now(), cut1)
      requires i < |start.rows| && start.rows[i].state.Live? && Under(start.rows[i], publisher, scope, generation)
      modifies this`rows, this`issued, this`cascaded, this`drawn, relay
      ensures Valid() && OnlySevers(old(rows), rows) && (ok || relay.LastLost())
      ensures Steady(issuer, start, Now(), publisher, scope, generation, cut, ok)
      ensures ok ==> Settled(issuer, start, Now(), cut)
      ensures ok ==> rows[i].state.Severed? && cascaded > old(cascaded)
      ensures rows == start.rows || cascaded > old(cascaded) || rows == old(rows)
      ensures cascaded >= old(cascaded)
      decreases LiveRows(start.rows), 0
    {
      ghost var mid, cut2 := Now(), {};
      assert i in LiveRows(start.rows) && LiveRows(rows) <= LiveRows(start.rows);
      ok, cut2 := RevokeRow(i);
      cut := cut1 + cut2;
      LoopStep(issuer, start, mid, Now(), publisher, scope, generation, i, cut1, cut2, ok);
      if ok {
        LoopStepSettles(issuer, start, mid, Now(), i, cut1, cut2);
      }
    }
  }

  // ---------------------------------------------------------------- the whole call

  /** The rows after a cascade, read off the lineage graph alone: every descendant is a tombstone. */
  ghost function CascadedRows(rows: seq<DerivedChild>, issuer: Pub, revoked: ParentRef): seq<DerivedChild> {
    seq(|rows|, i requires 0 <= i < |rows| =>
      if Descends(rows, issuer, revoked.publisher, revoked.scope, revoked.generation, i)
          then rows[i].(state := Severed) else rows[i])
  }

  ghost predicate NothingDescends(rows: seq<DerivedChild>, issuer: Pub, revoked: ParentRef) {
    forall i: nat | i < |rows| :: !Descends(rows, issuer, revoked.publisher, revoked.scope, revoked.generation, i)
  }

  /** The child scopes of every descendant. */
  ghost function DescendantScopes(rows: seq<DerivedChild>, issuer: Pub, revoked: ParentRef): set<ScopeId> {
    set i: nat | i < |rows| && Descends(rows, issuer, revoked.publisher, revoked.scope, revoked.generation, i) ::
        rows[i].child.scope
  }

  /** The Grant Index after a cascade that ran to its end. */
  ghost function CascadedIndex(index: Index, issuer: Pub, revoked: ParentRef): Index {
    var rows := Loaded(index.children);
    if NothingDescends(rows, issuer, revoked) then index
    else Index(WithoutScopes(index.issued, DescendantScopes(rows, issuer, revoked)), index.ledger,
               Capped(CascadedRows(rows, issuer, revoked)))
  }

  /** A cascade from `before` to `after`: what it may do when it stops early, and what it must do when it ends. */
  ghost predicate CascadeRun(before: seq<Event>, after: seq<Event>, issuer: Pub, revoked: ParentRef, drawn: nat,
                             ended: bool) {
    var index := LoadIndex(before, issuer);
    var doomed := Scopes(index.issued) * DescendantScopes(Loaded(index.children), issuer, revoked);
    && OnePerSlot(after)
    && SameGrants(before, after)
    && LoadIndex(after, issuer) == (if ended then CascadedIndex(index, issuer, revoked) else index)
    && (forall slot: Slot | slot != IndexSlot(issuer)
       && (slot.kind != KIND_DATA_SET || slot.pubkey != issuer || slot.d !in doomed) ::
          Current(after, slot) == Current(before, slot))
    && (forall e | e in index.issued && e.scope in doomed ::
          || Cut(after, issuer, e, drawn)
          || (!ended && Current(after, DataSlot(issuer, e.scope)) == Current(before, DataSlot(issuer, e.scope))))
    && (ended ==> AllTold(after, issuer, index, revoked))
  }

  /** For every scope that a cascade empties the holder of a descendant row of it got a notice. */
  ghost predicate AllTold(events: seq<Event>, issuer: Pub, index: Index, revoked: ParentRef) {
    var rows := Loaded(index.children);
    CutFrom(issuer, rows, revoked.publisher, revoked.scope, revoked.generation,
            Scopes(index.issued) * DescendantScopes(rows, issuer, revoked), events, true)
  }

  lemma ExactlyDescendants(rows: seq<DerivedChild>, after: seq<DerivedChild>, issuer: Pub, revoked: ParentRef)
    requires Touches(issuer, rows, after, revoked.publisher, revoked.scope, revoked.generation)
    requires Finishes(issuer, rows, after, revoked.publisher, revoked.scope, revoked.generation)
    ensures after == CascadedRows(rows, issuer, revoked)
    ensures SeveredScopes(rows, after) == DescendantScopes(rows, issuer, revoked)
    ensures NothingDescends(rows, issuer, revoked) <==> after == rows
  {
    forall i: nat | i < |rows|
      ensures Newly(rows, after, i) <==> Descends(rows, issuer, revoked.publisher, revoked.scope, revoked.generation, i)
    {
      if Descends(rows, issuer, revoked.publisher, revoked.scope, revoked.generation, i) {
        ClosedIsComplete(rows, after, issuer, revoked.publisher, revoked.scope, revoked.generation, i);
      }
    }
  }

  /** Saving the index replaces the stored index and nothing else. */
  lemma SaveIndex(events: seq<Event>, issuer: Pub, ts: int, index: Index)
    requires OnePerSlot(events)
    ensures var after := Published(events, IndexEvent(issuer, ts, index));
            OnePerSlot(after) && SameGrants(events, after) && NoticesStay(events, after, issuer)
            && LoadIndex(after, issuer) == index
            && forall slot | slot != IndexSlot(issuer) :: Current(after, slot) == Current(events, slot)
  {
    hide Current, Published;
    var e := IndexEvent(issuer, ts, index);
    PublishKeepsSlots(events, e);
    forall slot
      ensures Current(Published(events, e), slot) == if slot == IndexSlot(issuer) then Some(e)
              else Current(events, slot)
    {
      PublishReplaces(events, e, slot);
    }
  }

  /** `cascadeDerivedRevocation`: load, sever, and save only when something was severed. A load that goes unanswered
      reads as an empty index, and such a cascade ends at once. */
  method CascadeDerivedRevocation(relay: Relay, issuer: Pub, revoked: ParentRef, drawn: nat, answered: bool)
    returns (ok: bool, cascaded: nat, drawn': nat)
    requires OnePerSlot(relay.events) && UniqueScopes(LoadIndex(relay.events, issuer).issued)
    requires KeysBelow(relay.events, drawn)
    modifies relay
    ensures if answered
            then CascadeRun(old(relay.events), relay.events, issuer, revoked, drawn, ok)
                 && (ok ==>
                       (cascaded == 0 <==>
                        NothingDescends(Loaded(LoadIndex(old(relay.events), issuer).children), issuer, revoked)))
            else ok && cascaded == 0 && relay.events == old(relay.events)
    ensures drawn <= drawn' && KeysBelow(relay.events, drawn') && (ok || relay.LastLost())
  {
    var index := LoadAnswered(relay.events, issuer, answered);
    ghost var before := relay.events;
    var run := new Cascade(relay, issuer, Loaded(index.children), index.issued, drawn);
    ghost var cut: set<ScopeId>;
    ok, cut := run.RevokeChildren(revoked.publisher, revoked.scope, revoked.generation);
    cascaded, drawn' := run.cascaded, run.drawn;
    if answered {
      CutsRun(before, relay.events, issuer, revoked, drawn, cut, ok);
    }
    if !ok { return; }
    if answered {
      RunEnds(before, relay.events, issuer, revoked, drawn, cut, run.rows, run.issued);
    }
    if cascaded > 0 {
      ok := SaveCascade(relay, issuer, index, run.issued, run.rows, before, revoked, drawn, drawn');
    }
  }

  /** The closing save of a cascade that severed something. */
  method SaveCascade(relay: Relay, issuer: Pub, index: Index, issued: seq<IssuedEntry>, rows: seq<DerivedChild>,
                     ghost before: seq<Event>, ghost revoked: ParentRef, ghost drawn: nat, ghost drawn': nat)
    returns (ok: bool)
    requires CascadeRun(before, relay.events, issuer, revoked, drawn, false) && KeysBelow(relay.events, drawn')
    requires index == LoadIndex(before, issuer)
    requires CascadedIndex(index, issuer, revoked) == index.(issued := issued, children := Capped(rows))
    requires forall e | e in index.issued
               && e.scope in Scopes(index.issued) * DescendantScopes(Loaded(index.children), issuer, revoked) ::
               Cut(relay.events, issuer, e, drawn)
    requires AllTold(relay.events, issuer, index, revoked)
    modifies relay
    ensures CascadeRun(before, relay.events, issuer, revoked, drawn, ok) && KeysBelow(relay.events, drawn')
            && (ok || relay.LastLost())
  {
    hide CascadeRun, Published, AllTold;
    var ts: int := *;
    var saved := index.(issued := issued, children := Capped(rows));
    ghost var severed := relay.events;
    ok := relay.Publish(IndexEvent(issuer, ts, saved));
    if ok {
      PublishKeepsKeys(severed, IndexEvent(issuer, ts, saved), drawn', drawn');
      SavedRun(before, severed, issuer, ts, revoked, drawn);
    }
  }

  /** With every cut made, saving the cascaded index ends the run. */
  lemma SavedRun(before: seq<Event>, severed: seq<Event>, issuer: Pub, ts: int, revoked: ParentRef, drawn: nat)
    requires CascadeRun(before, severed, issuer, revoked, drawn, false)
    requires var index := LoadIndex(before, issuer);
             forall e | e in index.issued
               && e.scope in Scopes(index.issued) * DescendantScopes(Loaded(index.children), issuer, revoked) ::
               Cut(severed, issuer, e, drawn)
    requires AllTold(severed, issuer, LoadIndex(before, issuer), revoked)
    ensures var saved := CascadedIndex(LoadIndex(before, issuer), issuer, revoked);
            CascadeRun(before, Published(severed, IndexEvent(issuer, ts, saved)), issuer, revoked, drawn, true)
  {
    hide Published, Current, CascadedIndex, DescendantScopes, Loaded, Descends;
    var index := LoadIndex(before, issuer);
    var after := Published(severed, IndexEvent(issuer, ts, CascadedIndex(index, issuer, revoked)));
    SaveIndex(severed, issuer, ts, CascadedIndex(index, issuer, revoked));
    StillTold(issuer, Loaded(index.children), revoked.publisher, revoked.scope, revoked.generation,
              Scopes(index.issued) * DescendantScopes(Loaded(index.children), issuer, revoked), severed, after);
  }

  lemma StillTold(issuer: Pub, rows: seq<DerivedChild>, publisher: Pub, scope: ScopeId, generation: nat,
                  cut: set<ScopeId>, events: seq<Event>, after: seq<Event>)
    requires CutFrom(issuer, rows, publisher, scope, generation, cut, events, true)
             && NoticesStay(events, after, issuer)
    ensures CutFrom(issuer, rows, publisher, scope, generation, cut, after, true)
  {
    hide Descends;
    forall s | s in cut
      ensures exists j: nat :: Descends(rows, issuer, publisher, scope, generation, j)
                && Tells(issuer, rows, after, true, j, s)
    {
      var j: nat :| Descends(rows, issuer, publisher, scope, generation, j) && Tells(issuer, rows, events, true, j, s);
      assert Tells(issuer, rows, after, true, j, s);
    }
  }

  /** All cuts made: without descendants the run has ended, otherwise only the index is left to save. */
  lemma RunEnds(before: seq<Event>, severed: seq<Event>, issuer: Pub, revoked: ParentRef, drawn: nat, cut: set<ScopeId>,
                after: seq<DerivedChild>, issued: seq<IssuedEntry>)
    requires CascadeRun(before, severed, issuer, revoked, drawn, false)
    requires var index := LoadIndex(before, issuer); var rows := Loaded(index.children);
             && CutsOnly(before, severed, issuer, index.issued, drawn, cut)
             && Touches(issuer, rows, after, revoked.publisher, revoked.scope, revoked.generation)
             && Finishes(issuer, rows, after, revoked.publisher, revoked.scope, revoked.generation)
             && issued == WithoutScopes(index.issued, SeveredScopes(rows, after))
             && cut == Scopes(index.issued) * SeveredScopes(rows, after)
             && CutFrom(issuer, rows, revoked.publisher, revoked.scope, revoked.generation, cut, severed, true)
    ensures AllTold(severed, issuer, LoadIndex(before, issuer), revoked)
    ensures var index := LoadIndex(before, issuer); var rows := Loaded(index.children);
            && (NothingDescends(rows, issuer, revoked) <==> after == rows)
            && (after == rows ==> CascadeRun(before, severed, issuer, revoked, drawn, true))
            && (after != rows ==>
               CascadedIndex(index, issuer, revoked) == index.(issued := issued, children := Capped(after)))
            && (forall e | e in index.issued
                  && e.scope in Scopes(index.issued) * DescendantScopes(rows, issuer, revoked) ::
                  Cut(severed, issuer, e, drawn))
  {
    ExactlyDescendants(Loaded(LoadIndex(before, issuer).children), after, issuer, revoked);
  }

  /** Cuts among the descendants, seen as a cascade that has not saved its index. */
  lemma CutsRun(before: seq<Event>, after: seq<Event>, issuer: Pub, revoked: ParentRef, drawn: nat, cut: set<ScopeId>,
                told: bool)
    requires var index := LoadIndex(before, issuer);
             && UniqueScopes(index.issued)
             && CutsOnly(before, after, issuer, index.issued, drawn, cut)
             && CutFrom(issuer, Loaded(index.children), revoked.publisher, revoked.scope, revoked.generation, cut,
                        after, told)
    ensures CascadeRun(before, after, issuer, revoked, drawn, false)
  {
    hide Descends;
  }

  /** Whatever a stopped cascade left behind, running it again ends where an undisturbed cascade ends. */
  lemma StoppedThenRerun(before: seq<Event>, stopped: seq<Event>, after: seq<Event>, issuer: Pub, revoked: ParentRef,
                         drawn: nat, drawnLater: nat, ended: bool)
    requires CascadeRun(before, stopped, issuer, revoked, drawn, false)
    requires CascadeRun(stopped, after, issuer, revoked, drawnLater, ended) && drawn <= drawnLater
    ensures CascadeRun(before, after, issuer, revoked, drawn, ended)
  {
  }

  /** Nothing descends any more from what a finished cascade has severed. */
  lemma NothingLeft(index: Index, issuer: Pub, revoked: ParentRef)
    ensures NothingDescends(Loaded(CascadedIndex(index, issuer, revoked).children), issuer, revoked)
  {
    var rows, again := Loaded(index.children), CascadedIndex(index, issuer, revoked);
    if !NothingDescends(rows, issuer, revoked) {
      var later := Loaded(again.children);
      forall i: nat | i < |later|
        ensures !Descends(later, issuer, revoked.publisher, revoked.scope, revoked.generation, i)
      {
        if Descends(later, issuer, revoked.publisher, revoked.scope, revoked.generation, i) {
          var path :|
              Chain(later, issuer, revoked.publisher, revoked.scope, revoked.generation, path) && path[|path| - 1] == i;
          var top := later[path[0]];
          assert top in again.children && top in CascadedRows(rows, issuer, revoked);
          var j: nat :| j < |rows| && CascadedRows(rows, issuer, revoked)[j] == top;
          ChainUnder(rows, issuer, revoked.publisher, revoked.scope, revoked.generation, j);
        }
      }
    }
  }

  /** Once a cascade has ended, repeating it finds nothing to do. */
  lemma CascadeTwice(index: Index, issuer: Pub, revoked: ParentRef)
    ensures CascadedIndex(CascadedIndex(index, issuer, revoked), issuer, revoked)
            == CascadedIndex(index, issuer, revoked)
  {
    NothingLeft(index, issuer, revoked);
  }
}
