/** An issuance whose grant was delivered and whose record got lost (mcp/src/subgrants.ts, `issueDerivedGrant`). */
module LostRecords {
  import opened Options
  import opened Records
  import opened Entries
  import opened Relays
  import opened Redelegation
  import opened SubIssuerRuns

  /** The scope's data set is on the relay, and neither an entry nor a row knows of it. */
  ghost predicate Orphan(issuer: Pub, events: seq<Event>, scope: ScopeId, e: Event) {
    && Current(events, DataSlot(issuer, scope)) == Some(e)
    && scope !in Scopes(LoadIndex(events, issuer).issued)
    && forall r | r in LoadIndex(events, issuer).children :: r.child.scope != scope
  }

  /** The publishes of an issuance, the record excepted. */
  function LeafEvents(issuer: Pub, w: Desk, step: Step): (es: seq<Event>)
    requires step.Issue?
    ensures |es| == 2 && forall e | e in es :: e.signed
  {
    [SetEvent(issuer, step.scope, step.ts, 1, w.drawn, step.data),
     GrantEvent(step.recipient, LeafGrant(issuer, w, step))]
  }

  function LeafGrant(issuer: Pub, w: Desk, step: Step): Grant
    requires step.Issue?
  {
    Grant(issuer, step.scope, step.name, 1, w.drawn, Some(ChildTerms(step.terms)))
  }

  lemma IssueLeaves(issuer: Pub, w: Desk, step: Step, w': Desk, scope: ScopeId, e: Event)
    requires Inv(issuer, w) && step.Issue? && Next(issuer, w, step, w') && Orphan(issuer, w.events, scope, e)
    ensures Orphan(issuer, w'.events, scope, e)
  {
    hide Wire, Books, KeysBelow, Gate, Current, LoadIndex, PublishedAll;
    IssueKeeps(issuer, w, step, w');
    assert OnePerSlot(w.events) by { OneEach(issuer, w); }
    var es := IssuePublishes(w.events, issuer, step.parent, step.recipient, step.data, step.name, step.terms,
                             step.scope, w.drawn, step.ts, ALL_ANSWERED);
    SlotStays(w.events, es[..step.published], DataSlot(issuer, scope));
    if step.published == 3 {
      RecordIsApart(LoadIndex(w.events, issuer), step, w.drawn, scope);
    }
  }

  lemma OneEach(issuer: Pub, w: Desk)
    requires Inv(issuer, w)
    ensures OnePerSlot(w.events)
  {
  }

  lemma RecordIsApart(index: Index, step: Step, key: Key, scope: ScopeId)
    requires step.Issue? && step.scope != scope && scope !in Scopes(index.issued)
    requires forall r | r in index.children :: r.child.scope != scope
    ensures var after := WithChild(index, step.parent, step.recipient, step.scope, step.name, key);
            scope !in Scopes(after.issued) && forall r | r in after.children :: r.child.scope != scope
  {
  }

  lemma CascadeLeaves(issuer: Pub, w: Desk, revoked: ParentRef, ended: bool, w': Desk, scope: ScopeId, e: Event)
    requires Next(issuer, w, Cascade(revoked, ended), w') && Orphan(issuer, w.events, scope, e)
    ensures Orphan(issuer, w'.events, scope, e)
  {
    hide Current, LoadIndex, KeysBelow;
  }

  lemma StepLeaves(issuer: Pub, w: Desk, step: Step, w': Desk, scope: ScopeId, e: Event)
    requires Inv(issuer, w) && Next(issuer, w, step, w') && Orphan(issuer, w.events, scope, e)
    ensures Orphan(issuer, w'.events, scope, e)
  {
    hide Inv, Wire, Books, KeysBelow, LoadIndex, Current;
    match step
    case Issue(_, _, _, _, _, _, _, _, _) => IssueLeaves(issuer, w, step, w', scope, e);
    case Cascade(revoked, ended) => CascadeLeaves(issuer, w, revoked, ended, w', scope, e);
    case Elsewhere(x) =>
      ElsewhereKeeps(issuer, w, x, w');
      assert OnePerSlot(w.events) by { OneEach(issuer, w); }
      PublishReplaces(w.events, x, DataSlot(issuer, scope));
  }

  lemma GrantsStay(issuer: Pub, w: Desk, step: Step, w': Desk, to: Pub, g: Grant)
    requires Next(issuer, w, step, w') && GrantEvent(to, g) in w.events
    ensures GrantEvent(to, g) in w'.events
  {
    hide Current, LoadIndex, KeysBelow, Gate;
    if step.Issue? {
      var es := IssuePublishes(w.events, issuer, step.parent, step.recipient, step.data, step.name, step.terms,
                               step.scope, w.drawn, step.ts, ALL_ANSWERED);
      WrapsStay(w.events, es[..step.published], GrantEvent(to, g));
    }
  }

  lemma RecordLost(issuer: Pub, w: Desk, step: Step, w': Desk)
    requires Inv(issuer, w) && Next(issuer, w, step, w') && step.Issue? && step.published == 2
    ensures w'.minted == w.minted && LoadIndex(w'.events, issuer) == LoadIndex(w.events, issuer)
    ensures Orphan(issuer, w'.events, step.scope, LeafEvents(issuer, w, step)[0])
    ensures GrantEvent(step.recipient, LeafGrant(issuer, w, step)) in w'.events
  {
    hide Wire, Books, KeysBelow, Gate, Current, LoadIndex, Published;
    IssueKeeps(issuer, w, step, w');
    assert Unused(issuer, w.events, step.scope) by { FreshIsUnused(issuer, w.events, step.scope); }
    assert OnePerSlot(w.events) by { OneEach(issuer, w); }
    var es := IssuePublishes(w.events, issuer, step.parent, step.recipient, step.data, step.name, step.terms,
                             step.scope, w.drawn, step.ts, ALL_ANSWERED);
    PublishSteps(w.events, es);
    PublishReplaces(w.events, es[0], DataSlot(issuer, step.scope));
    PublishReplaces(Published(w.events, es[0]), es[1], DataSlot(issuer, step.scope));
  }

  /** An issuance that broke off after the grant went out is never counted and never severed: in every later state of
      the run no entry and no row knows of the leaf, and its grant reads, whatever was revoked in between. */
  lemma {:induction false} LostRecordIsForGood(issuer: Pub, ws: seq<Desk>, steps: seq<Step>, i: nat, j: nat)
    requires Run(issuer, ws, steps) && i < j < |ws| && steps[i].Issue? && steps[i].published == 2
    ensures ws[i + 1].minted == ws[i].minted && LoadIndex(ws[i + 1].events, issuer) == LoadIndex(ws[i].events, issuer)
    ensures Orphan(issuer, ws[j].events, steps[i].scope, LeafEvents(issuer, ws[i], steps[i])[0])
    ensures GrantEvent(steps[i].recipient, LeafGrant(issuer, ws[i], steps[i])) in ws[j].events
    ensures FetchScope(ws[j].events, issuer, steps[i].scope, 1, ws[i].drawn) == Read(1, steps[i].data)
    decreases j
  {
    hide Next, Inv, LoadIndex, Current;
    if j == i + 1 {
      RunKeeps(issuer, ws, steps, i);
      RecordLost(issuer, ws[i], steps[i], ws[j]);
    } else {
      LostRecordIsForGood(issuer, ws, steps, i, j - 1);
      RunKeeps(issuer, ws, steps, j - 1);
      StepLeaves(issuer, ws[j - 1], steps[j - 1], ws[j], steps[i].scope, LeafEvents(issuer, ws[i], steps[i])[0]);
      GrantsStay(issuer, ws[j - 1], steps[j - 1], ws[j], steps[i].recipient, LeafGrant(issuer, ws[i], steps[i]));
    }
  }
}
