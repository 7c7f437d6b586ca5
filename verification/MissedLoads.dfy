/** The sub-issuer's runs when a query for its index may go unanswered and the index reads as an empty one. */
module MissedLoads {
  import opened Sequences
  import opened Records
  import opened Entries
  import opened Relays
  import opened Lineage
  import opened Cascades
  import opened Redelegation
  import opened SubIssuerRuns

  /** A step whose queries are answered as `a` says. A cascade that misses its load ends at once. */
  ghost predicate NextWith(issuer: Pub, w: Desk, step: Step, a: Answers, w': Desk) {
    match step
    case Issue(parent, recipient, data, name, terms, now, scope, ts, published) =>
      var es := IssuePublishes(w.events, issuer, parent, recipient, data, name, terms, scope, w.drawn, ts, a);
      && Gate(w.events, issuer, parent, recipient, name, terms, now, a).None?
      && Current(w.events, DataSlot(issuer, scope)).None?
      && Hex64(parent.grant.publisher) && (published >= 2 ==> Hex64(recipient))
      && published <= 3
      && w' == Desk(PublishedAll(w.events, es[..published]), w.drawn + 1,
                    if published == 3 then w.minted + [Minted(parent.grant.publisher, parent.grant.scope, recipient)]
                        else w.minted)
    case Cascade(revoked, ended) =>
      if a.index then Next(issuer, w, step, w')
      else ended && w'.events == w.events && w'.minted == w.minted && w.drawn <= w'.drawn
    case Elsewhere(_) => Next(issuer, w, step, w')
  }

  ghost predicate RunWith(issuer: Pub, ws: seq<Desk>, steps: seq<Step>, answers: seq<Answers>) {
    && |ws| == |steps| + 1 && |answers| == |steps|
    && ws[0] == Desk([], 0, [])
    && forall i | 0 <= i < |steps| :: NextWith(issuer, ws[i], steps[i], answers[i], ws[i + 1])
  }

  /** An index in which there is nothing to forget. */
  predicate Bare(index: Index) {
    index.issued == [] && index.ledger == [] && Loaded(index.children) == []
  }

  /** A missed load does harm: it lets an issuance pass that the stored index forbids, or writes a record over an index
      that was not empty, or ends a cascade that had something to sever. */
  ghost predicate Matters(issuer: Pub, w: Desk, step: Step, a: Answers) {
    match step
    case Issue(parent, recipient, data, name, terms, now, scope, ts, published) =>
      || (!a.index && Gate(w.events, issuer, parent, recipient, name, terms, now, ALL_ANSWERED).Some?)
      || (!a.record && published == 3 && !Bare(LoadIndex(w.events, issuer)))
    case Cascade(revoked, ended) =>
        !a.index && !NothingDescends(Loaded(LoadIndex(w.events, issuer).children), issuer, revoked)
    case Elsewhere(_) => false
  }

  /** Writing a child into the loaded index and into an empty one is the same exactly when there is nothing to
      forget. */
  lemma RecordOverEmpty(index: Index, parent: HeldGrant, recipient: Pub, scope: ScopeId, name: string, key: Key)
    ensures Bare(index) <==>
            WithChild(EMPTY_INDEX, parent, recipient, scope, name, key)
            == WithChild(index, parent, recipient, scope, name, key)
  {
    var a, b := WithChild(EMPTY_INDEX, parent, recipient, scope, name, key),
        WithChild(index, parent, recipient, scope, name, key);
    var row := ChildRow(parent, recipient, scope, name);
    assert Loaded([]) == [] && a.children == [row];
    assert |a.issued| == 1 && |b.issued| == |index.issued| + 1;
    if Loaded(index.children) != [] {
      assert |b.children| > 1;
    }
    if Bare(index) {
      assert [] + [row] == [row];
    }
  }

  lemma LastSaved(issuer: Pub, events: seq<Event>, es: seq<Event>, ts: int, index: Index)
    requires OnePerSlot(events) && |es| == 3 && (forall e | e in es :: e.signed)
             && es[2] == IndexEvent(issuer, ts, index)
    ensures LoadIndex(PublishedAll(events, es), issuer) == index
  {
    hide Current, Published;
    PublishSteps(events, es);
    PublishKeepsSlots(events, es[0]);
    PublishKeepsSlots(Published(events, es[0]), es[1]);
    PublishReplaces(Published(Published(events, es[0]), es[1]), es[2], IndexSlot(issuer));
  }

  lemma IssueMatters(issuer: Pub, w: Desk, step: Step, a: Answers, w': Desk)
    requires OnePerSlot(w.events) && step.Issue? && NextWith(issuer, w, step, a, w')
    ensures Next(issuer, w, step, w') <==> !Matters(issuer, w, step, a)
  {
    hide PublishedAll, LoadIndex, Current, WithChild, Bare, FetchScope, Validate, AdmitsAnother, Hex64;
    var es := IssuePublishes(w.events, issuer, step.parent, step.recipient, step.data, step.name, step.terms,
                             step.scope, w.drawn, step.ts, a);
    var all := IssuePublishes(w.events, issuer, step.parent, step.recipient, step.data, step.name, step.terms,
                              step.scope, w.drawn, step.ts, ALL_ANSWERED);
    assert es[..3] == es && all[..3] == all;
    assert step.published < 3 ==> es[..step.published] == all[..step.published];
    RecordOverEmpty(LoadIndex(w.events, issuer), step.parent, step.recipient, step.scope, step.name, w.drawn);
    if step.published == 3 {
      LastSaved(issuer, w.events, es, step.ts + 1, es[2].body.index);
      LastSaved(issuer, w.events, all, step.ts + 1, all[2].body.index);
      assert es[2] == all[2] ==> es == all;
    }
  }

  lemma CascadeMatters(issuer: Pub, w: Desk, step: Step, a: Answers, w': Desk)
    requires OnePerSlot(w.events) && KeysBelow(w.events, w.drawn) && step.Cascade? && NextWith(issuer, w, step, a, w')
    ensures Next(issuer, w, step, w') <==> !Matters(issuer, w, step, a)
  {
    hide LoadIndex, Current, NothingDescends, DescendantScopes, Cut;
    if !a.index {
      var index := LoadIndex(w.events, issuer);
      NothingLeft(index, issuer, step.revoked);
      if NothingDescends(Loaded(index.children), issuer, step.revoked) {
        NoDescendantScopes(Loaded(index.children), issuer, step.revoked);
        assert KeysBelow(w'.events, w'.drawn);
      }
    }
  }

  lemma NoDescendantScopes(rows: seq<DerivedChild>, issuer: Pub, revoked: ParentRef)
    requires NothingDescends(rows, issuer, revoked)
    ensures DescendantScopes(rows, issuer, revoked) == {}
  {
  }

  /** A step with missed loads is a step with every load answered if and only if no miss matters. */
  lemma MissesMatter(issuer: Pub, w: Desk, step: Step, a: Answers, w': Desk)
    requires Inv(issuer, w) && NextWith(issuer, w, step, a, w')
    ensures Next(issuer, w, step, w') <==> !Matters(issuer, w, step, a)
  {
    hide Next, NextWith, Matters;
    assert OnePerSlot(w.events) && KeysBelow(w.events, w.drawn);
    match step
    case Issue(_, _, _, _, _, _, _, _, _) => IssueMatters(issuer, w, step, a, w');
    case Cascade(_, _) => CascadeMatters(issuer, w, step, a, w');
    case Elsewhere(_) => ElsewhereIsAnswered(issuer, w, step, a, w');
  }

  lemma ElsewhereIsAnswered(issuer: Pub, w: Desk, step: Step, a: Answers, w': Desk)
    requires step.Elsewhere? && NextWith(issuer, w, step, a, w')
    ensures Next(issuer, w, step, w') && !Matters(issuer, w, step, a)
  {
  }

  /** A run with missed loads is a run with every load answered if and only if no miss in it matters. */
  lemma {:induction false} RunIsAnswered(issuer: Pub, ws: seq<Desk>, steps: seq<Step>, answers: seq<Answers>, n: nat)
    requires RunWith(issuer, ws, steps, answers) && n <= |steps|
    ensures Run(issuer, ws[..n + 1], steps[..n]) <==> forall i | 0 <= i < n ::
            !Matters(issuer, ws[i], steps[i], answers[i])
    decreases n
  {
    hide Next, NextWith, Matters, Inv;
    if n > 0 {
      RunIsAnswered(issuer, ws, steps, answers, n - 1);
      Shorter(issuer, ws, steps, n);
      if Run(issuer, ws[..n], steps[..n - 1]) {
        RunKeeps(issuer, ws[..n], steps[..n - 1], n - 1);
        MissesMatter(issuer, ws[n - 1], steps[n - 1], answers[n - 1], ws[n]);
      }
    }
  }

  lemma Shorter(issuer: Pub, ws: seq<Desk>, steps: seq<Step>, n: nat)
    requires |ws| == |steps| + 1 && 0 < n <= |steps|
    ensures Run(issuer, ws[..n + 1], steps[..n])
            <==> Run(issuer, ws[..n], steps[..n - 1]) && Next(issuer, ws[n - 1], steps[n - 1], ws[n])
  {
    hide Next;
    var lw, ls, sw, ss := ws[..n + 1], steps[..n], ws[..n], steps[..n - 1];
    if Run(issuer, lw, ls) {
      assert Next(issuer, lw[n - 1], ls[n - 1], lw[n]);
      forall i | 0 <= i < n - 1
        ensures Next(issuer, sw[i], ss[i], sw[i + 1])
      {
        assert Next(issuer, lw[i], ls[i], lw[i + 1]);
      }
    }
    if Run(issuer, sw, ss) && Next(issuer, ws[n - 1], steps[n - 1], ws[n]) {
      forall i | 0 <= i < n
        ensures Next(issuer, lw[i], ls[i], lw[i + 1])
      {
        if i < n - 1 {
          assert Next(issuer, sw[i], ss[i], sw[i + 1]);
        }
      }
    }
  }

  // ---------------------------------------------------------------- what survives, and what a miss costs

  /** No missed load up to state `n` mattered. */
  ghost predicate NoneMatters(issuer: Pub, ws: seq<Desk>, steps: seq<Step>, answers: seq<Answers>, n: nat)
    requires n <= |steps| && |ws| == |steps| + 1 && |answers| == |steps|
  {
    forall i | 0 <= i < n :: !Matters(issuer, ws[i], steps[i], answers[i])
  }

  /** Unless a missed load mattered, a severed row has no entry, and no grant ever handed out opens its scope again. */
  lemma TombstonesSurviveMisses(issuer: Pub, ws: seq<Desk>, steps: seq<Step>, answers: seq<Answers>, n: nat,
                                r: DerivedChild, to: Pub, g: Grant)
    requires RunWith(issuer, ws, steps, answers) && n <= |steps| && NoneMatters(issuer, ws, steps, answers, n)
    requires r in LoadIndex(ws[n].events, issuer).children && r.state.Severed?
    ensures r.child.scope !in Scopes(LoadIndex(ws[n].events, issuer).issued)
    ensures SeveredOnRelay(ws[n].events, issuer, r.child.scope)
    ensures GrantEvent(to, g) in ws[n].events && g.publisher == issuer && g.scope == r.child.scope ==>
              FetchScope(ws[n].events, issuer, g.scope, g.v, g.key).Stale?
  {
    hide NextWith, Matters, Next, Inv, LoadIndex, SeveredOnRelay, FetchScope;
    RunIsAnswered(issuer, ws, steps, answers, n);
    TombstonesAreDurable(issuer, ws[..n + 1], steps[..n], n, r, to, g);
  }

  /** Unless a missed load mattered, the budget holds in every state, for the rows and for all of history up to the
      cap. */
  lemma BudgetSurvivesMisses(issuer: Pub, ws: seq<Desk>, steps: seq<Step>, answers: seq<Answers>, n: nat)
    requires RunWith(issuer, ws, steps, answers) && n <= |steps| && NoneMatters(issuer, ws, steps, answers, n)
    ensures WithinBudget(AllReached(LoadIndex(ws[n].events, issuer).children))
    ensures |ws[n].minted| <= LINEAGE_CAP ==> WithinBudget(ws[n].minted)
  {
    hide NextWith, Matters, Next, Inv, LoadIndex, WithinBudget;
    RunIsAnswered(issuer, ws, steps, answers, n);
    BudgetOverRuns(issuer, ws[..n + 1], steps[..n], n);
  }

  /** One row more keeps the budget if and only if the default bound admits it. */
  lemma AdmittedIsWithin(rows: seq<DerivedChild>, row: DerivedChild)
    requires WithinBudget(AllReached(rows))
    ensures WithinBudget(AllReached(rows + [row])) <==>
            AdmitsAnother(Bound(MAX_CHILDREN, MAX_GRANTEES, true),
                          ChildrenOf(rows, row.parent.publisher, row.parent.scope), row.child.grantee)
  {
    hide WithinBudget, AdmitsAnother, Filter, AllReached;
    var mine := ChildrenOf(rows, row.parent.publisher, row.parent.scope);
    if AdmitsAnother(Bound(MAX_CHILDREN, MAX_GRANTEES, true), mine, row.child.grantee) {
      AdmittedStaysWithin(rows, row, true);
    }
    if WithinBudget(AllReached(rows + [row])) {
      var f := From(row.parent.publisher, row.parent.scope);
      ReachedFilter(rows + [row], row.parent.publisher, row.parent.scope);
      FilterAppend(f, rows, [row]);
      KeptAlone(f, row);
      WithinAdmits(rows, row, mine);
    }
  }

  lemma KeptAlone(f: DerivedChild -> bool, row: DerivedChild)
    requires f(row)
    ensures Filter(f, [row]) == [row]
  {
  }

  lemma WithinAdmits(rows: seq<DerivedChild>, row: DerivedChild, mine: seq<DerivedChild>)
    requires WithinBudget(AllReached(rows + [row]))
    requires Filter(For(row.parent.publisher, row.parent.scope), AllReached(rows + [row])) == AllReached(mine + [row])
    ensures AdmitsAnother(Bound(MAX_CHILDREN, MAX_GRANTEES, true), mine, row.child.grantee)
  {
    hide AllReached, Filter, GranteesOf;
    BoundsAt(AllReached(rows + [row]), row.parent.publisher, row.parent.scope);
    ReachedGrantees(mine + [row]);
    GranteesMore(mine, row);
  }

  lemma BoundsAt(minted: seq<Minted>, publisher: Pub, scope: ScopeId)
    requires WithinBudget(minted)
    ensures var mine := Filter(For(publisher, scope), minted);
            |mine| <= MAX_CHILDREN && |set m | m in mine :: m.grantee| <= MAX_GRANTEES
  {
  }

  lemma GranteesMore(mine: seq<DerivedChild>, row: DerivedChild)
    ensures |GranteesOf(mine + [row])| == |GranteesOf(mine)| + if row.child.grantee in GranteesOf(mine) then 0 else 1
  {
    hide GranteesOf;
    OneGranteeMore(mine, row);
    OneMember(GranteesOf(mine), row.child.grantee);
  }

  lemma OneGranteeMore(mine: seq<DerivedChild>, row: DerivedChild)
    ensures GranteesOf(mine + [row]) == GranteesOf(mine) + {row.child.grantee}
  {
    assert forall r :: r in mine + [row] <==> r in mine || r == row;
  }

  lemma OneMember(s: set<Pub>, p: Pub)
    ensures |s + {p}| == |s| + if p in s then 0 else 1
  {
    if p in s {
      assert s + {p} == s;
    }
  }

  lemma Slots(issuer: Pub, w: Desk)
    requires Inv(issuer, w)
    ensures OnePerSlot(w.events)
  {
  }

  /** A missed load before the budget check: an issuance that completes and is recorded keeps the budget if and only if
      the stored rows would have admitted it. A spent parent therefore gets its ninth child, or its fifth grantee. */
  lemma MissedCheckCostsTheBudget(issuer: Pub, w: Desk, step: Step, w': Desk)
    requires Inv(issuer, w) && Budgeted(issuer, w) && step.Issue? && step.published == 3
    requires NextWith(issuer, w, step, Answers(false, true, true), w')
    requires |LoadIndex(w.events, issuer).children| < LINEAGE_CAP
    ensures var g := step.parent.grant;
            WithinBudget(AllReached(LoadIndex(w'.events, issuer).children)) <==>
            AdmitsAnother(Bound(MAX_CHILDREN, MAX_GRANTEES, true),
                          ChildrenOf(LoadIndex(w.events, issuer).children, g.publisher, g.scope), step.recipient)
  {
    hide PublishedAll, LoadIndex, Current, FetchScope, Validate, AdmitsAnother, ChildrenOf, Hex64, WithinBudget,
         AllReached, Wire, KeysBelow, Capped;
    var rows := LoadIndex(w.events, issuer).children;
    var row := ChildRow(step.parent, step.recipient, step.scope, step.name);
    var es := IssuePublishes(w.events, issuer, step.parent, step.recipient, step.data, step.name, step.terms,
                             step.scope, w.drawn, step.ts, Answers(false, true, true));
    assert es[..3] == es;
    assert OnePerSlot(w.events) by { Slots(issuer, w); }
    LoadedAll(issuer, w.events);
    hide Books;
    LastSaved(issuer, w.events, es, step.ts + 1, es[2].body.index);
    AdmittedIsWithin(rows, row);
    assert LoadIndex(w'.events, issuer).children == Capped(rows + [row]);
    assert Capped(rows + [row]) == rows + [row];
  }
}
