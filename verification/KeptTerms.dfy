/** Over a run: whoever is listed holds its newest grant under the terms it was last granted under. */
module KeptTerms {
  import opened Options
  import opened Records
  import opened Entries
  import opened Relays
  import opened LedgerLog
  import opened Rotation
  import opened RelinquishPlans
  import opened Consoles
  import opened Lifecycle

  /** The grant bears the entry's name and, while the log retains it, the terms of the newest granted event. */
  ghost predicate UnderTerms(index: Index, e: IssuedEntry, p: Pub, g: Grant) {
    && g.scope_name == e.scope_name
    && match LatestGranted(index.ledger, Pair(e.scope, p))
       case Some(ev) => g.terms == ev.terms
       case None => true
  }

  /** Every grant of the entry's own generation does. */
  ghost predicate Agreed(me: Pub, events: seq<Event>, index: Index, e: IssuedEntry) {
    forall p, g | GrantEvent(p, g) in events && g.publisher == me && g.scope == e.scope && g.v == e.v ::
      UnderTerms(index, e, p, g)
  }

  /** So it is in every scope of which no rotation broke off. */
  ghost predicate AllAgreed(me: Pub, w: World) {
    forall e | e in w.index.issued && e.scope !in TornScopes(me, w) :: Agreed(me, w.events, w.index, e)
  }

  /** The rotations of the console log no granted event. */
  ghost predicate GrantsNothing(make: EventMaker) {
    forall e, n :: NothingGranted(make(e, n))
  }

  lemma RunnersGrantNothing(at: int, n: nat, agent: Pub, reason: Option<string>, item: Item)
    ensures GrantsNothing(ExpiryLog(at, n)) && GrantsNothing(RevokeLog(at, agent, reason))
    ensures GrantsNothing(RelinquishLog(at, item))
  {
  }

  lemma OneFades(log: seq<LedgerEvent>, ev: LedgerEvent, k: Pair)
    requires !(ev.Granted? && Pair(ev.scope, ev.agent) == k)
    ensures LatestGranted(AppendLedger(log, ev), k) == LatestGranted(log, k)
            || LatestGranted(AppendLedger(log, ev), k) == None
  {
    var longer := log + [ev];
    assert longer[..|longer| - 1] == log;
    if |longer| > LEDGER_CAP {
      SuffixForgets(longer, |longer| - LEDGER_CAP, k);
    }
  }

  lemma NewestStays(log: seq<LedgerEvent>, ev: LedgerEvent)
    requires ev.Granted?
    ensures LatestGranted(AppendLedger(log, ev), Pair(ev.scope, ev.agent)) == Some(ev)
  {
  }

  /** The newest granted event of a pair is the same, or forgotten. */
  ghost predicate Fades(before: seq<LedgerEvent>, after: seq<LedgerEvent>, k: Pair) {
    LatestGranted(after, k) == LatestGranted(before, k) || LatestGranted(after, k) == None
  }

  /** An entry that stays, with no new grants of its generation, and whose pairs only fade. */
  lemma StaysAgreed(me: Pub, w: World, w': World, e: IssuedEntry)
    requires Agreed(me, w.events, w.index, e)
    requires forall p, g | GrantEvent(p, g) in w'.events && g.publisher == me && g.scope == e.scope && g.v == e.v ::
               GrantEvent(p, g) in w.events
    requires forall p :: Fades(w.index.ledger, w'.index.ledger, Pair(e.scope, p))
    ensures Agreed(me, w'.events, w'.index, e)
  {
    hide LatestGranted;
  }

  lemma QuietAgreed(me: Pub, w: World, w': World)
    requires AllAgreed(me, w) && w'.index == w.index && TornScopes(me, w) <= TornScopes(me, w')
    requires forall p, g | GrantEvent(p, g) in w'.events && g.publisher == me :: GrantEvent(p, g) in w.events
    ensures AllAgreed(me, w')
  {
    hide LatestGranted, TornScopes;
  }

  /** What an issue hands out. */
  lemma IssueGrants(me: Pub, w: World, step: Step, w': World)
    requires OnePerSlot(w.events) && step.Issue? && Next(me, w, step, w')
    ensures forall p, g | GrantEvent(p, g) in w'.events && GrantEvent(p, g) !in w.events ::
              p == step.agent && g == Grant(me, step.scope, step.name, 1, w.drawn, Some(step.terms))
  {
    hide PublishedAll, KeysBelow, LastSet, Current;
    var entry := IssuedEntry(step.scope, step.name, 1, w.drawn, [step.agent]);
    var sealed := SetEvent(me, step.scope, step.ts, 1, w.drawn, step.data);
    var wrap := GrantEvent(step.agent, GrantOf(me, entry, Some(step.terms)));
    var recorded := IssuedIndex(w.index, entry, step.agent, step.terms, step.at);
    PublishedNone(w.events);
    if step.r == Broken(1) {
      PublishedDelta(me, w.events, [sealed]);
    } else if step.r == Broken(2) {
      PublishedDelta(me, w.events, [sealed, wrap]);
    } else if step.r == Done {
      PublishedDelta(me, w.events, [sealed, wrap] + [IndexEvent(me, step.ts + 1, recorded)]);
    }
  }

  /** Nothing of the scope was there before. */
  lemma ScopeIsNew(me: Pub, w: World, scope: ScopeId)
    requires Inv(me, w) && Current(w.events, DataSlot(me, scope)).None?
    ensures forall p, g | GrantEvent(p, g) in w.events && g.publisher == me :: g.scope != scope
    ensures forall e | e in w.index.issued :: e.scope != scope
  {
  }

  lemma IssueAgreed(me: Pub, w: World, step: Step, w': World)
    requires Inv(me, w) && AllAgreed(me, w) && step.Issue? && Next(me, w, step, w')
    requires TornScopes(me, w') == TornScopes(me, w)
    ensures AllAgreed(me, w')
  {
    hide LatestGranted, TornScopes, PublishedAll, KeysBelow, Listed, Remembered, AppendLedger, Current;
    var ev := Granted(step.at, step.scope, step.agent, 1, Some(step.terms), step.name);
    assert OnePerSlot(w.events) by { WiredSlots(me, w.events); }
    IssueGrants(me, w, step, w');
    ScopeIsNew(me, w, step.scope);
    NewestStays(w.index.ledger, ev);
    hide Inv, Wired;
    forall e | e in w'.index.issued && e.scope !in TornScopes(me, w')
      ensures Agreed(me, w'.events, w'.index, e)
    {
      if e in w.index.issued {
        forall p
          ensures Fades(w.index.ledger, w'.index.ledger, Pair(e.scope, p))
        {
          OneFades(w.index.ledger, ev, Pair(e.scope, p));
        }
        StaysAgreed(me, w, w', e);
      }
    }
  }

  /** What holds of a scope that is not torn. */
  lemma NotTornIsSynced(me: Pub, w: World, e: IssuedEntry)
    requires Inv(me, w) && e in w.index.issued && e.scope !in TornScopes(me, w)
    ensures Synced(w.events, me, e)
  {
  }

  lemma AddAgreed(me: Pub, w: World, step: Step, w': World)
    requires Inv(me, w) && AllAgreed(me, w) && step.Add? && Next(me, w, step, w')
             && TornScopes(me, w') == TornScopes(me, w)
    requires step.scope in Scopes(w.index.issued)
             && step.pub !in w.index.issued[EntryAt(w.index.issued, step.scope)].grantees
    requires w'.index != w.index
    ensures AllAgreed(me, w')
  {
    hide LatestGranted, TornScopes, PublishedAll, KeysBelow, Torn, Synced, Remembered, AppendLedger, LastSet, Current,
         HasData, Wired;
    var i := EntryAt(w.index.issued, step.scope);
    var entry := w.index.issued[i];
    assert entry in w.index.issued;
    var ev := Granted(step.at, step.scope, step.pub, entry.v, Some(step.terms), entry.scope_name);
    var grant := GrantOf(me, entry, Some(step.terms));
    assert OnePerSlot(w.events) by { WiredSlots(me, w.events); }
    PublishedDelta(me, w.events, [GrantEvent(step.pub, grant)]);
    PublishedDelta(me, w.events, [GrantEvent(step.pub, grant)] + [IndexEvent(me, step.ts, w'.index)]);
    NewestStays(w.index.ledger, ev);
    forall k: Pair | k != Pair(step.scope, step.pub)
      ensures Fades(w.index.ledger, w'.index.ledger, k)
    {
      OneFades(w.index.ledger, ev, k);
    }
    forall j | 0 <= j < |w'.index.issued| && w'.index.issued[j].scope !in TornScopes(me, w')
      ensures Agreed(me, w'.events, w'.index, w'.index.issued[j])
    {
      var e := w.index.issued[j];
      assert e in w.index.issued;
      if j == i {
        NotTornIsSynced(me, w, e);
        NobodyElse(me, w.events, e, step.pub);
        AddedAgrees(me, w, w', e, w'.index.issued[j], step.pub, grant, ev);
      } else {
        StaysAgreed(me, w, w', e);
      }
    }
  }

  lemma NobodyElse(me: Pub, events: seq<Event>, e: IssuedEntry, p: Pub)
    requires Synced(events, me, e) && p !in e.grantees
    ensures forall g | GrantEvent(p, g) in events && g.publisher == me && g.scope == e.scope :: g.v != e.v
  {
    assert !HasGrant(events, me, p, e.scope, e.v);
  }

  lemma AddedAgrees(me: Pub, w: World, w': World, e: IssuedEntry, e': IssuedEntry, pub: Pub, grant: Grant,
                    ev: LedgerEvent)
    requires Agreed(me, w.events, w.index, e) && e' == e.(grantees := e'.grantees)
    requires forall g | GrantEvent(pub, g) in w.events && g.publisher == me && g.scope == e.scope :: g.v != e.v
    requires forall p, g | GrantEvent(p, g) in w'.events :: GrantEvent(p, g) in w.events || (p == pub && g == grant)
    requires ev.Granted? && LatestGranted(w'.index.ledger, Pair(e.scope, pub)) == Some(ev)
    requires grant.scope_name == e.scope_name && grant.terms == ev.terms
    requires forall k: Pair | k != Pair(e.scope, pub) :: Fades(w.index.ledger, w'.index.ledger, k)
    ensures Agreed(me, w'.events, w'.index, e')
  {
    hide LatestGranted;
    forall p, g | GrantEvent(p, g) in w'.events && g.publisher == me && g.scope == e'.scope && g.v == e'.v
      ensures UnderTerms(w'.index, e', p, g)
    {
      if p != pub {
        assert Fades(w.index.ledger, w'.index.ledger, Pair(e.scope, p));
      }
    }
  }

  /** What a rotation hands out. */
  lemma RotationGrants(me: Pub, w: World, step: Step, entry: IssuedEntry, w': World)
    requires OnePerSlot(w.events) && step.Rotate? && Next(me, w, step, w') && step.scope in Scopes(w.index.issued)
    requires entry == w.index.issued[EntryAt(w.index.issued, step.scope)]
    ensures forall p, g | GrantEvent(p, g) in w'.events && GrantEvent(p, g) !in w.events ::
              && g.scope == entry.scope && g.v == entry.v + 1 && g.scope_name == entry.scope_name
              && g.terms == TermsOf(w.index, Pair(entry.scope, p))
  {
    hide LatestGranted, PublishedAll, KeysBelow, RotationEvents, FetchScope, AfterRotation, LastSet, Current,
         Survivors, TermsOf;
    if !step.r.Refused? {
      var data := FetchScope(w.events, me, entry.scope, entry.v, entry.key).data;
      var all := RotationEvents(me, w.index, entry, step.drop, w.drawn, data, step.ts);
      var n := if step.r.Broken? then step.r.sent else |all|;
      var es := if step.r.Broken? then all[..n] else all + [IndexEvent(me, step.ts + 1, w'.index)];
      PublishedDelta(me, w.events, es);
      forall p, g | GrantEvent(p, g) in w'.events && GrantEvent(p, g) !in w.events
        ensures g.scope == entry.scope && g.v == entry.v + 1 && g.scope_name == entry.scope_name
        ensures g.terms == TermsOf(w.index, Pair(entry.scope, p))
      {
        assert GrantEvent(p, g) in es;
        assert GrantEvent(p, g) in all;
        var i :| 0 <= i < |all| && all[i] == GrantEvent(p, g);
        var s := Survivors(entry, step.drop)[i - 1];
        assert all[(i - 1) + 1] == GrantEvent(s, GrantOf(me, RotatedEntry(entry, step.drop, w.drawn),
                                                         TermsOf(w.index, Pair(entry.scope, s))));
      }
    }
  }

  lemma RotateAgreed(me: Pub, w: World, step: Step, w': World)
    requires Inv(me, w) && AllAgreed(me, w) && step.Rotate? && Next(me, w, step, w') && GrantsNothing(step.make)
    requires TornScopes(me, w') == TornScopes(me, w) + Tore(w, step)
    requires step.scope in Scopes(w.index.issued)
    ensures AllAgreed(me, w')
  {
    hide LatestGranted, TornScopes, PublishedAll, KeysBelow, Torn, Synced, Remembered, AppendAll, LastSet, Current,
         HasData, RotationEvents, FetchScope, Survivors;
    var i := EntryAt(w.index.issued, step.scope);
    var entry := w.index.issued[i];
    assert entry in w.index.issued;
    assert OnePerSlot(w.events) by { WiredSlots(me, w.events); }
    RotationGrants(me, w, step, entry, w');
    if w'.index == w.index {
      StoppedAgreed(me, w, step, entry, w');
    } else {
      var log := step.make(entry, |Survivors(entry, step.drop)|);
      assert NothingGranted(log);
      forall k
        ensures Fades(w.index.ledger, w'.index.ledger, k)
      {
        TermsFade(w.index.ledger, log, k);
      }
      ReplacedOne(w.index.issued, i, RotatedEntry(entry, step.drop, w.drawn));
      forall j | 0 <= j < |w'.index.issued| && w'.index.issued[j].scope !in TornScopes(me, w')
        ensures Agreed(me, w'.events, w'.index, w'.index.issued[j])
      {
        assert w.index.issued[j] in w.index.issued;
        if j == i {
          NotTornIsSynced(me, w, entry);
          OlderGrants(me, w, entry);
          RotatedAgrees(me, w, w', entry, w'.index.issued[i]);
        } else {
          StaysAgreed(me, w, w', w.index.issued[j]);
        }
      }
    }
  }

  lemma OlderGrants(me: Pub, w: World, e: IssuedEntry)
    requires Inv(me, w) && Synced(w.events, me, e)
    ensures forall p, g | GrantEvent(p, g) in w.events && g.publisher == me && g.scope == e.scope :: g.v <= e.v
  {
    hide Current;
  }

  lemma RotatedAgrees(me: Pub, w: World, w': World, e: IssuedEntry, e': IssuedEntry)
    requires e'.scope == e.scope && e'.v == e.v + 1 && e'.scope_name == e.scope_name
    requires forall p, g | GrantEvent(p, g) in w.events && g.publisher == me && g.scope == e.scope :: g.v <= e.v
    requires forall p, g | GrantEvent(p, g) in w'.events && GrantEvent(p, g) !in w.events ::
               g.scope_name == e.scope_name && g.terms == TermsOf(w.index, Pair(e.scope, p))
    requires forall k :: Fades(w.index.ledger, w'.index.ledger, k)
    ensures Agreed(me, w'.events, w'.index, e')
  {
    hide LatestGranted;
    forall p, g | GrantEvent(p, g) in w'.events && g.publisher == me && g.scope == e'.scope && g.v == e'.v
      ensures UnderTerms(w'.index, e', p, g)
    {
      assert GrantEvent(p, g) !in w.events;
      assert Fades(w.index.ledger, w'.index.ledger, Pair(e.scope, p));
    }
  }

  /** The rotation left the index alone: then it handed out nothing, or tore its scope. */
  lemma StoppedAgreed(me: Pub, w: World, step: Step, entry: IssuedEntry, w': World)
    requires AllAgreed(me, w) && step.Rotate? && Next(me, w, step, w') && w'.index == w.index
    requires step.scope in Scopes(w.index.issued) && entry == w.index.issued[EntryAt(w.index.issued, step.scope)]
    requires TornScopes(me, w') == TornScopes(me, w) + Tore(w, step)
    requires forall p, g | GrantEvent(p, g) in w'.events && GrantEvent(p, g) !in w.events :: g.scope == entry.scope
    ensures AllAgreed(me, w')
  {
    hide LatestGranted, TornScopes, PublishedAll, KeysBelow, RotationEvents, FetchScope, Survivors, AfterRotation;
    RotationMoves(w.index, step, w.drawn);
    PublishedNone(w.events);
    if !step.r.Refused? {
      var data := FetchScope(w.events, me, entry.scope, entry.v, entry.key).data;
      assert RotationEvents(me, w.index, entry, step.drop, w.drawn, data, step.ts)[..0] == [];
    }
    forall e | e in w'.index.issued && e.scope !in TornScopes(me, w')
      ensures Agreed(me, w'.events, w'.index, e)
    {
      if e.scope != step.scope {
        StaysAgreed(me, w, w', e);
      }
    }
  }

  lemma RotationMoves(index: Index, step: Step, key: Key)
    requires step.Rotate? && step.scope in Scopes(index.issued)
    ensures AfterRotation(index, step.scope, step.drop, key, step.make) != index
  {
    var i := EntryAt(index.issued, step.scope);
    assert AfterRotation(index, step.scope, step.drop, key, step.make).issued[i].v == index.issued[i].v + 1;
  }

  lemma NextAgreed(me: Pub, w: World, step: Step, w': World)
    requires Inv(me, w) && AllAgreed(me, w) && Next(me, w, step, w') && (step.Rotate? ==> GrantsNothing(step.make))
    ensures AllAgreed(me, w')
  {
    hide Inv, AllAgreed, TornScopes, GrantsNothing;
    NextKeeps(me, w, step, w');
    match step
    case Issue(_, _, _, _, _, _, _, _) => IssueAgreed(me, w, step, w');
    case Add(_, _, _, _, _, _) => AddOrNotAgreed(me, w, step, w');
    case Rotate(_, _, _, _, _, _) => RotateOrNotAgreed(me, w, step, w');
    case Notify(p, scope) => QuietAgreed(me, w, w');
    case Refresh(_, _) => QuietAgreed(me, w, w');
    case Dereference(_, _, _, _) => QuietAgreed(me, w, w');
    case Elsewhere(e) => QuietAgreed(me, w, w');
  }

  lemma AddOrNotAgreed(me: Pub, w: World, step: Step, w': World)
    requires Inv(me, w) && AllAgreed(me, w) && step.Add? && Next(me, w, step, w')
    requires TornScopes(me, w') == TornScopes(me, w)
    ensures AllAgreed(me, w')
  {
    hide Inv, AllAgreed, TornScopes, PublishedAll, KeysBelow;
    PublishedNone(w.events);
    if w'.index == w.index {
      if step.scope in Scopes(w.index.issued) {
        AddMoves(w.index, step);
      }
      QuietAgreed(me, w, w');
    } else {
      AddAgreed(me, w, step, w');
    }
  }

  lemma AddMoves(index: Index, step: Step)
    requires step.Add? && step.scope in Scopes(index.issued)
    ensures AddedIndex(index, step.scope, step.pub, step.terms, step.at) != index
  {
    var i := EntryAt(index.issued, step.scope);
    assert |AddedIndex(index, step.scope, step.pub, step.terms, step.at).issued[i].grantees|
           == |index.issued[i].grantees| + 1;
  }

  lemma RotateOrNotAgreed(me: Pub, w: World, step: Step, w': World)
    requires Inv(me, w) && AllAgreed(me, w) && step.Rotate? && Next(me, w, step, w') && GrantsNothing(step.make)
    requires TornScopes(me, w') == TornScopes(me, w) + Tore(w, step)
    ensures AllAgreed(me, w')
  {
    hide Inv, AllAgreed, TornScopes, GrantsNothing, RotationTail, FetchScope;
    if step.scope in Scopes(w.index.issued) {
      RotateAgreed(me, w, step, w');
    } else {
      QuietAgreed(me, w, w');
    }
  }

  lemma {:induction false} RunAgrees(me: Pub, ws: seq<World>, steps: seq<Step>, n: nat)
    requires Run(me, ws, steps) && n <= |steps|
    requires forall i | 0 <= i < n && steps[i].Rotate? :: GrantsNothing(steps[i].make)
    ensures AllAgreed(me, ws[n])
    decreases n
  {
    hide Inv, Next, AllAgreed, TornScopes, BrokeOff, GrantsNothing;
    if n == 0 {
      NothingYet(me);
    } else {
      RunAgrees(me, ws, steps, n - 1);
      RunKeeps(me, ws, steps, n - 1);
      NextAgreed(me, ws[n - 1], steps[n - 1], ws[n]);
    }
  }

  lemma NothingYet(me: Pub)
    ensures AllAgreed(me, World([], EMPTY_INDEX, 0, map[]))
  {
  }

  /** In every run of which no rotation of the scope broke off, the newest grant of a listed identity is of the entry's
      generation, under the entry's key and name, and carries the terms the identity was last granted the scope under,
      as long as the log retains that event. */
  lemma ListedHoldTheirTerms(me: Pub, ws: seq<World>, steps: seq<Step>, n: nat, e: IssuedEntry, p: Pub,
                             received: seq<Grant>)
    requires Run(me, ws, steps) && n <= |steps| && e in ws[n].index.issued && p in e.grantees
    requires forall i | 0 <= i < n && steps[i].Rotate? :: GrantsNothing(steps[i].make)
    requires forall i | 0 <= i < n && BrokeOff(ws[i], steps[i]) :: steps[i].scope != e.scope
    requires Inbox(me, ws[n].events, p, received)
    ensures Latest(received, e.scope).Some?
    ensures var g := Latest(received, e.scope).value;
            && g.publisher == me && g.scope == e.scope && g.v == e.v && g.key == e.key && g.scope_name == e.scope_name
            && match LatestGranted(ws[n].index.ledger, Pair(e.scope, p))
               case Some(ev) => g.terms == ev.terms
               case None => true
  {
    hide Next, TornScopes, BrokeOff, GrantsNothing, LatestGranted, Latest, FetchScope, KeysBelow, HasData, DataAt;
    RunKeeps(me, ws, steps, n);
    RunAgrees(me, ws, steps, n);
    assert e.scope !in TornScopes(me, ws[n]);
    NotTornIsSynced(me, ws[n], e);
    EntryIsTruth(me, ws[n], e, p, received);
    LatestIs(received, e.scope);
    var g := Latest(received, e.scope).value;
    assert GrantEvent(p, g) in ws[n].events;
    StaleMeansRotated(me, ws[n].events, g);
    assert Agreed(me, ws[n].events, ws[n].index, e);
  }
}
