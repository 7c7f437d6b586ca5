/** Every run of a sub-issuer: issuances and cascades, completed or cut short, among other people's traffic. */
module SubIssuerRuns {
  import opened Options
  import opened Sequences
  import opened Records
  import opened Entries
  import opened Relays
  import opened Lineage
  import opened Cascades
  import opened Redelegation

  /** A completed issuance, as history remembers it. */
  datatype Minted = Minted(publisher: Pub, scope: ScopeId, grantee: Pub)

  /** The relay, the next unused key, and (for the statements only) every issuance ever completed. */
  datatype Desk = Desk(events: seq<Event>, drawn: nat, minted: seq<Minted>)

  datatype Step =
    | Issue(parent: HeldGrant, recipient: Pub, data: Payload, name: string, terms: DerivedTerms, now: int,
            scope: ScopeId, ts: int, published: nat)
    | Cascade(revoked: ParentRef, ended: bool)
    | Elsewhere(event: Event)

  /** A step in which every query is answered. */
  ghost predicate Next(issuer: Pub, w: Desk, step: Step, w': Desk) {
    match step
    case Issue(parent, recipient, data, name, terms, now, scope, ts, published) =>
      var es := IssuePublishes(w.events, issuer, parent, recipient, data, name, terms, scope, w.drawn, ts,
                               ALL_ANSWERED);
      && Gate(w.events, issuer, parent, recipient, name, terms, now, ALL_ANSWERED).None?
      && Current(w.events, DataSlot(issuer, scope)).None?
      && Hex64(parent.grant.publisher) && (published >= 2 ==> Hex64(recipient))
      && published <= 3
      && w' == Desk(PublishedAll(w.events, es[..published]), w.drawn + 1,
                    if published == 3 then w.minted + [Minted(parent.grant.publisher, parent.grant.scope, recipient)]
                        else w.minted)
    case Cascade(revoked, ended) =>
      && CascadeRun(w.events, w'.events, issuer, revoked, w.drawn, ended)
      && w.drawn <= w'.drawn && KeysBelow(w'.events, w'.drawn) && w'.minted == w.minted
    case Elsewhere(e) =>
      && Foreign(issuer, e) && w'.events == Published(w.events, e)
      && w.drawn <= w'.drawn && KeysBelow(w'.events, w'.drawn) && w'.minted == w.minted
  }

  ghost predicate Run(issuer: Pub, ws: seq<Desk>, steps: seq<Step>) {
    && |ws| == |steps| + 1
    && ws[0] == Desk([], 0, [])
    && forall i | 0 <= i < |steps| :: Next(issuer, ws[i], steps[i], ws[i + 1])
  }

  // ---------------------------------------------------------------- the invariant

  /** The scope is on the relay, empty, above every generation ever handed out and under a key nobody was given. */
  ghost predicate SeveredOnRelay(events: seq<Event>, issuer: Pub, scope: ScopeId) {
    && HasData(events, issuer, scope)
    && DataAt(events, issuer, scope).data == Empty
    && forall to, g | GrantEvent(to, g) in events && g.publisher == issuer ::
         (g.scope == scope ==> g.v < DataAt(events, issuer, scope).v) && g.key != DataAt(events, issuer, scope).key
  }

  ghost predicate Wire(issuer: Pub, events: seq<Event>) {
    && OnePerSlot(events)
    && forall to, g | GrantEvent(to, g) in events && g.publisher == issuer ::
         && HasData(events, issuer, g.scope) && g.v <= DataAt(events, issuer, g.scope).v
         && forall e | e in LoadIndex(events, issuer).issued && e.scope == g.scope :: g.v <= e.v
  }

  ghost predicate DistinctScopes(rows: seq<DerivedChild>) {
    forall i, j | 0 <= i < j < |rows| :: rows[i].child.scope != rows[j].child.scope
  }

  ghost predicate Books(issuer: Pub, events: seq<Event>) {
    var index := LoadIndex(events, issuer);
    && UniqueScopes(index.issued) && DistinctScopes(index.children)
    && (forall e | e in index.issued :: HasData(events, issuer, e.scope))
    && (forall r | r in index.children :: WellFormed(r) && HasData(events, issuer, r.child.scope))
    && (forall r | r in index.children && r.state.Live? :: r.child.scope in Scopes(index.issued))
    && (forall r | r in index.children && r.state.Severed? ::
          r.child.scope !in Scopes(index.issued) && SeveredOnRelay(events, issuer, r.child.scope))
  }

  ghost predicate Inv(issuer: Pub, w: Desk) {
    Wire(issuer, w.events) && Books(issuer, w.events) && KeysBelow(w.events, w.drawn)
  }

  // ---------------------------------------------------------------- each publish of an issuance

  /** A scope id that was never used: no data set, hence no grant, no entry and no row. */
  ghost predicate Unused(issuer: Pub, events: seq<Event>, scope: ScopeId) {
    && Current(events, DataSlot(issuer, scope)).None?
    && scope !in Scopes(LoadIndex(events, issuer).issued)
    && (forall r | r in LoadIndex(events, issuer).children :: r.child.scope != scope)
    && (forall to, g | GrantEvent(to, g) in events && g.publisher == issuer :: g.scope != scope)
  }

  lemma FreshIsUnused(issuer: Pub, events: seq<Event>, scope: ScopeId)
    requires Wire(issuer, events) && Books(issuer, events)
    requires Current(events, DataSlot(issuer, scope)).None?
    ensures Unused(issuer, events, scope)
  {
  }

  /** Outside `changed`, the issuer's data sets are the same before and after. */
  ghost predicate SameSets(issuer: Pub, events: seq<Event>, after: seq<Event>, changed: set<ScopeId>) {
    forall s | s !in changed :: Current(after, DataSlot(issuer, s)) == Current(events, DataSlot(issuer, s))
  }

  /** Data sets outside `changed` and all grants being the same, what was said about other scopes stays true. */
  lemma OtherScopesKeep(issuer: Pub, events: seq<Event>, after: seq<Event>, changed: set<ScopeId>)
    requires SameSets(issuer, events, after, changed) && SameGrants(events, after)
    ensures forall s | s !in changed && HasData(events, issuer, s) ::
            HasData(after, issuer, s) && DataAt(after, issuer, s) == DataAt(events, issuer, s)
    ensures forall s | s !in changed && SeveredOnRelay(events, issuer, s) :: SeveredOnRelay(after, issuer, s)
  {
  }

  lemma WireKeeps(issuer: Pub, events: seq<Event>, after: seq<Event>, changed: set<ScopeId>)
    requires Wire(issuer, events) && OnePerSlot(after) && LoadIndex(after, issuer) == LoadIndex(events, issuer)
    requires SameSets(issuer, events, after, changed) && SameGrants(events, after)
    requires forall to, g | GrantEvent(to, g) in events && g.publisher == issuer && g.scope in changed ::
               HasData(after, issuer, g.scope) && g.v <= DataAt(after, issuer, g.scope).v
    ensures Wire(issuer, after)
  {
  }

  lemma BooksKeep(issuer: Pub, events: seq<Event>, after: seq<Event>, changed: set<ScopeId>)
    requires Books(issuer, events) && LoadIndex(after, issuer) == LoadIndex(events, issuer)
    requires SameSets(issuer, events, after, changed) && SameGrants(events, after)
    requires forall e | e in LoadIndex(events, issuer).issued :: e.scope !in changed
    requires forall r | r in LoadIndex(events, issuer).children :: r.child.scope !in changed
    ensures Books(issuer, after)
  {
  }

  lemma PublishSet(issuer: Pub, events: seq<Event>, drawn: nat, scope: ScopeId, ts: int, data: Payload)
    requires Wire(issuer, events) && Books(issuer, events) && Unused(issuer, events, scope)
    ensures var after := Published(events, SetEvent(issuer, scope, ts, 1, drawn, data));
            && Wire(issuer, after) && Books(issuer, after)
            && LoadIndex(after, issuer) == LoadIndex(events, issuer)
            && SameGrants(events, after) && SameSets(issuer, events, after, {scope})
            && Current(after, DataSlot(issuer, scope)) == Some(SetEvent(issuer, scope, ts, 1, drawn, data))
  {
    hide Current, Published;
    var e := SetEvent(issuer, scope, ts, 1, drawn, data);
    var after := Published(events, e);
    forall slot
      ensures OnePerSlot(after)
      ensures Current(after, slot) == if slot == DataSlot(issuer, scope) then Some(e) else Current(events, slot)
    {
      PublishReplaces(events, e, slot);
    }
    assert forall x | x in LoadIndex(events, issuer).issued :: x.scope in Scopes(LoadIndex(events, issuer).issued);
    WireKeeps(issuer, events, after, {scope});
    BooksKeep(issuer, events, after, {scope});
  }

  /** One more grant to the leaf, under a key that seals no other data set. */
  lemma PublishGrant(issuer: Pub, events: seq<Event>, to: Pub, g: Grant)
    requires Wire(issuer, events) && Books(issuer, events)
    requires g.publisher == issuer && HasData(events, issuer, g.scope) && g.v <= DataAt(events, issuer, g.scope).v
    requires forall x | x in LoadIndex(events, issuer).issued :: x.scope != g.scope
    requires forall r | r in LoadIndex(events, issuer).children ::
             r.child.scope != g.scope && DataAt(events, issuer, r.child.scope).key != g.key
    ensures var after := Published(events, GrantEvent(to, g));
            && Wire(issuer, after) && Books(issuer, after)
            && LoadIndex(after, issuer) == LoadIndex(events, issuer)
            && SameSets(issuer, events, after, {})
            && (forall to', g' ::
               GrantEvent(to', g') in after <==> GrantEvent(to', g') in events || (to' == to && g' == g))
  {
    hide Current, Published;
    var e := GrantEvent(to, g);
    var after := Published(events, e);
    forall slot
      ensures OnePerSlot(after) && Current(after, slot) == Current(events, slot)
    {
      PublishReplaces(events, e, slot);
    }
    forall r | r in LoadIndex(events, issuer).children && SeveredOnRelay(events, issuer, r.child.scope)
      ensures SeveredOnRelay(after, issuer, r.child.scope)
    {
    }
  }

  lemma RecordBooks(issuer: Pub, events: seq<Event>, after: seq<Event>, row: DerivedChild, entry: IssuedEntry)
    requires Books(issuer, events)
    requires SameSets(issuer, events, after, {}) && SameGrants(events, after)
    requires LoadIndex(after, issuer).issued == LoadIndex(events, issuer).issued + [entry]
    requires LoadIndex(after, issuer).children == Capped(LoadIndex(events, issuer).children + [row])
    requires forall x | x in LoadIndex(events, issuer).issued :: x.scope != entry.scope
    requires forall r | r in LoadIndex(events, issuer).children :: r.child.scope != entry.scope
    requires HasData(events, issuer, entry.scope) && row.child.scope == entry.scope && row.state.Live?
             && WellFormed(row)
    ensures Books(issuer, after)
  {
    hide Current, Published, LoadIndex, HasData, DataAt, SeveredOnRelay, Capped;
    var issued, children := LoadIndex(events, issuer).issued, LoadIndex(events, issuer).children;
    OtherScopesKeep(issuer, events, after, {});
    ScopesAppend(issued, entry);
    assert DistinctScopes(children + [row]);
    CappedDistinct(children + [row], children + [row]);
    hide SameSets, SameGrants, DistinctScopes, UniqueScopes, Scopes;
    assert forall e | e in issued + [entry] :: e in issued || e == entry;
    assert forall r | r in children + [row] :: r in children || r == row;
  }

  lemma ScopesAppend(issued: seq<IssuedEntry>, entry: IssuedEntry)
    requires UniqueScopes(issued) && forall x | x in issued :: x.scope != entry.scope
    ensures UniqueScopes(issued + [entry]) && Scopes(issued + [entry]) == Scopes(issued) + {entry.scope}
  {
    assert (issued + [entry])[|issued|] == entry;
    assert forall e | e in issued :: e in issued + [entry];
    assert forall e | e in issued + [entry] :: e in issued || e == entry;
  }

  lemma PublishRecord(issuer: Pub, events: seq<Event>, ts: int, index: Index, row: DerivedChild, entry: IssuedEntry)
    requires Wire(issuer, events) && Books(issuer, events)
    requires index == Index(LoadIndex(events, issuer).issued + [entry], LoadIndex(events, issuer).ledger,
                            Capped(LoadIndex(events, issuer).children + [row]))
    requires forall x | x in LoadIndex(events, issuer).issued :: x.scope != entry.scope
    requires forall r | r in LoadIndex(events, issuer).children :: r.child.scope != entry.scope
    requires HasData(events, issuer, entry.scope) && row.child.scope == entry.scope && row.state.Live?
             && WellFormed(row)
    requires forall to, g | GrantEvent(to, g) in events && g.publisher == issuer && g.scope == entry.scope ::
             g.v <= entry.v
    ensures var after := Published(events, IndexEvent(issuer, ts, index));
            Wire(issuer, after) && Books(issuer, after) && LoadIndex(after, issuer) == index
  {
    hide Current, Published, LoadIndex;
    var after := Published(events, IndexEvent(issuer, ts, index));
    SaveIndex(events, issuer, ts, index);
    assert SameSets(issuer, events, after, {});
    OtherScopesKeep(issuer, events, after, {});
    RecordBooks(issuer, events, after, row, entry);
    assert forall e | e in index.issued :: e in LoadIndex(events, issuer).issued || e == entry;
  }

  lemma LoadedAll(issuer: Pub, events: seq<Event>)
    requires Books(issuer, events)
    ensures Loaded(LoadIndex(events, issuer).children) == LoadIndex(events, issuer).children
  {
  }

  /** What the relay says after the data set of an issuance is out, and after its grant is. */
  ghost predicate ChildOut(issuer: Pub, events: seq<Event>, after: seq<Event>, drawn: nat, scope: ScopeId) {
    && Wire(issuer, after) && Books(issuer, after) && KeysBelow(after, drawn + 1)
    && LoadIndex(after, issuer) == LoadIndex(events, issuer)
    && HasData(after, issuer, scope) && DataAt(after, issuer, scope).v == 1
    && (forall to, g | GrantEvent(to, g) in after && g.publisher == issuer && g.scope == scope :: g.v <= 1)
  }

  lemma SetOut(issuer: Pub, events: seq<Event>, drawn: nat, scope: ScopeId, ts: int, data: Payload)
    requires Wire(issuer, events) && Books(issuer, events) && KeysBelow(events, drawn) && Unused(issuer, events, scope)
    ensures ChildOut(issuer, events, Published(events, SetEvent(issuer, scope, ts, 1, drawn, data)), drawn, scope)
  {
    hide Current, Published, LoadIndex, Wire, Books, KeysBelow;
    PublishSet(issuer, events, drawn, scope, ts, data);
    PublishKeepsKeys(events, SetEvent(issuer, scope, ts, 1, drawn, data), drawn, drawn + 1);
  }

  lemma OldKeys(issuer: Pub, events: seq<Event>, drawn: nat)
    requires Wire(issuer, events) && KeysBelow(events, drawn)
    ensures forall s | HasData(events, issuer, s) :: DataAt(events, issuer, s).key < drawn
  {
  }

  lemma GrantOut(issuer: Pub, events: seq<Event>, e1: seq<Event>, drawn: nat, to: Pub, g: Grant)
    requires Books(issuer, events) && Unused(issuer, events, g.scope) && ChildOut(issuer, events, e1, drawn, g.scope)
    requires g.publisher == issuer && g.v == 1 && g.key == drawn
    requires forall s | s != g.scope && HasData(events, issuer, s) ::
             HasData(e1, issuer, s) && DataAt(e1, issuer, s).key < drawn
    ensures ChildOut(issuer, events, Published(e1, GrantEvent(to, g)), drawn, g.scope)
  {
    hide Current, Published, LoadIndex, Wire;
    assert forall x | x in LoadIndex(events, issuer).issued :: x.scope in Scopes(LoadIndex(events, issuer).issued);
    PublishGrant(issuer, e1, to, g);
    PublishKeepsKeys(e1, GrantEvent(to, g), drawn + 1, drawn + 1);
  }

  /** The first `n` publishes of an issuance, the record still missing. */
  lemma IssueSteps(issuer: Pub, w: Desk, step: Step, n: nat)
    requires Inv(issuer, w) && step.Issue? && Unused(issuer, w.events, step.scope) && n <= 2
    ensures var es := IssuePublishes(w.events, issuer, step.parent, step.recipient, step.data, step.name, step.terms,
                                     step.scope, w.drawn, step.ts, ALL_ANSWERED);
            var after := PublishedAll(w.events, es[..n]);
            if n == 0 then after == w.events else ChildOut(issuer, w.events, after, w.drawn, step.scope)
  {
    hide Current, Published, LoadIndex, PublishedAll, Wire, Books, Unused, ChildOut;
    var es := IssuePublishes(w.events, issuer, step.parent, step.recipient, step.data, step.name, step.terms,
                             step.scope, w.drawn, step.ts, ALL_ANSWERED);
    PublishSteps(w.events, es);
    SetOut(issuer, w.events, w.drawn, step.scope, step.ts, step.data);
    OtherHolds(issuer, w.events, w.drawn, step.scope, step.ts, step.data);
    GrantOut(issuer, w.events, Published(w.events, es[0]), w.drawn, step.recipient, es[1].body.grant);
  }

  lemma OtherHolds(issuer: Pub, events: seq<Event>, drawn: nat, scope: ScopeId, ts: int, data: Payload)
    requires Wire(issuer, events) && Books(issuer, events) && KeysBelow(events, drawn) && Unused(issuer, events, scope)
    ensures var e1 := Published(events, SetEvent(issuer, scope, ts, 1, drawn, data));
            forall s | s != scope && HasData(events, issuer, s) ::
                HasData(e1, issuer, s) && DataAt(e1, issuer, s).key < drawn
  {
    hide Current, Published, LoadIndex, Wire, Books, KeysBelow;
    PublishSet(issuer, events, drawn, scope, ts, data);
    OldKeys(issuer, events, drawn);
  }

  lemma IssueKeeps(issuer: Pub, w: Desk, step: Step, w': Desk)
    requires Inv(issuer, w) && step.Issue? && Next(issuer, w, step, w')
    ensures Inv(issuer, w')
    ensures step.published < 3 ==> LoadIndex(w'.events, issuer) == LoadIndex(w.events, issuer)
    ensures step.published == 3 ==>
              LoadIndex(w'.events, issuer) == WithChild(LoadIndex(w.events, issuer), step.parent, step.recipient,
                                                        step.scope, step.name, w.drawn)
  {
    hide Current, Published, LoadIndex, PublishedAll, Wire, Books, Unused, Gate;
    var es := IssuePublishes(w.events, issuer, step.parent, step.recipient, step.data, step.name, step.terms,
                             step.scope, w.drawn, step.ts, ALL_ANSWERED);
    FreshIsUnused(issuer, w.events, step.scope);
    if step.published < 3 {
      IssueSteps(issuer, w, step, step.published);
    } else {
      IssueSteps(issuer, w, step, 2);
      PublishSteps(w.events, es);
      assert es[..3] == es;
      var e2 := PublishedAll(w.events, es[..2]);
      RecordOut(issuer, w.events, e2, w.drawn, step, es[2].body.index);
      PublishKeepsKeys(e2, es[2], w.drawn + 1, w.drawn + 1);
    }
  }

  lemma RecordOut(issuer: Pub, events: seq<Event>, e2: seq<Event>, drawn: nat, step: Step, index: Index)
    requires step.Issue? && Books(issuer, events) && Unused(issuer, events, step.scope)
             && ChildOut(issuer, events, e2, drawn, step.scope)
    requires index == WithChild(LoadIndex(events, issuer), step.parent, step.recipient, step.scope, step.name, drawn)
    requires Hex64(step.parent.grant.publisher) && Hex64(step.recipient)
    ensures var after := Published(e2, IndexEvent(issuer, step.ts + 1, index));
            Wire(issuer, after) && Books(issuer, after) && LoadIndex(after, issuer) == index
  {
    hide Current, Published, LoadIndex, Wire;
    LoadedAll(issuer, events);
    assert forall x | x in LoadIndex(events, issuer).issued :: x.scope in Scopes(LoadIndex(events, issuer).issued);
    PublishRecord(issuer, e2, step.ts + 1, index, ChildRow(step.parent, step.recipient, step.scope, step.name),
                  IssuedEntry(step.scope, step.name, 1, drawn, [step.recipient]));
  }

  // ---------------------------------------------------------------- a cascade

  lemma {:induction false} FilterDistinct(keep: DerivedChild -> bool, rows: seq<DerivedChild>)
    requires DistinctScopes(rows)
    ensures DistinctScopes(Filter(keep, rows))
  {
    if rows != [] {
      FilterDistinct(keep, rows[1..]);
      assert forall r | r in Filter(keep, rows[1..]) :: r in rows[1..] && r.child.scope != rows[0].child.scope;
    }
  }

  /** What a completed cascade leaves in the index: tombstones without entries, live rows with theirs. */
  lemma CascadedBooks(issuer: Pub, index: Index, revoked: ParentRef, r: DerivedChild)
    requires DistinctScopes(index.children) && (forall x | x in index.children :: WellFormed(x))
    requires forall x | x in index.children :: x.state.Live? <==> x.child.scope in Scopes(index.issued)
    requires r in CascadedIndex(index, issuer, revoked).children
    ensures exists x :: x in index.children && (r == x || r == x.(state := Severed))
    ensures r.state.Live? <==> r.child.scope in Scopes(CascadedIndex(index, issuer, revoked).issued)
    ensures r.state.Severed? && r !in index.children ==>
              r.child.scope in Scopes(index.issued) * DescendantScopes(Loaded(index.children), issuer, revoked)
  {
    var rows := Loaded(index.children);
    assert rows == index.children;
    if !NothingDescends(rows, issuer, revoked) {
      var gone := DescendantScopes(rows, issuer, revoked);
      WithoutScopesAre(index.issued, gone);
      assert r in CascadedRows(rows, issuer, revoked);
      var i: nat :| i < |rows| && CascadedRows(rows, issuer, revoked)[i] == r;
      assert rows[i] in index.children;
      ScopeGoes(rows, issuer, revoked, i);
      if Descends(rows, issuer, revoked.publisher, revoked.scope, revoked.generation, i) {
        DescendantsAreLive(rows, issuer, revoked, i);
      }
    }
  }

  /** Child scopes being distinct, a row's scope goes exactly when the row does. */
  lemma ScopeGoes(rows: seq<DerivedChild>, issuer: Pub, revoked: ParentRef, i: nat)
    requires DistinctScopes(rows) && i < |rows|
    ensures rows[i].child.scope in DescendantScopes(rows, issuer, revoked) <==>
            Descends(rows, issuer, revoked.publisher, revoked.scope, revoked.generation, i)
  {
  }

  lemma DescendantsAreLive(rows: seq<DerivedChild>, issuer: Pub, revoked: ParentRef, i: nat)
    requires Descends(rows, issuer, revoked.publisher, revoked.scope, revoked.generation, i)
    ensures i < |rows| && rows[i].state.Live?
  {
  }

  lemma CascadedDistinct(issuer: Pub, index: Index, revoked: ParentRef)
    requires DistinctScopes(index.children) && UniqueScopes(index.issued)
    requires forall x | x in index.children :: WellFormed(x)
    ensures DistinctScopes(CascadedIndex(index, issuer, revoked).children)
    ensures UniqueScopes(CascadedIndex(index, issuer, revoked).issued)
    ensures forall x | x in CascadedIndex(index, issuer, revoked).children :: WellFormed(x)
    ensures forall e | e in CascadedIndex(index, issuer, revoked).issued :: e in index.issued
  {
    var rows := Loaded(index.children);
    assert rows == index.children;
    WithoutUnique(index.issued, DescendantScopes(rows, issuer, revoked));
    CappedDistinct(rows, CascadedRows(rows, issuer, revoked));
  }

  lemma CappedDistinct(rows: seq<DerivedChild>, after: seq<DerivedChild>)
    requires DistinctScopes(rows) && OnlySevers(rows, after)
    ensures DistinctScopes(Capped(after))
    ensures (forall x | x in rows :: WellFormed(x)) ==> forall x | x in Capped(after) :: WellFormed(x)
  {
    forall i, j | 0 <= i < j < |after|
      ensures after[i].child.scope != after[j].child.scope
    {
      assert after[i].child == rows[i].child && after[j].child == rows[j].child;
    }
    forall x | x in after && (forall r | r in rows :: WellFormed(r))
      ensures WellFormed(x)
    {
      var i: nat :| i < |after| && after[i] == x;
      assert rows[i] in rows;
    }
  }

  /** A data set either stays or is replaced by the empty one of a doomed entry. */
  lemma CascadeSets(issuer: Pub, w: Desk, revoked: ParentRef, ended: bool, w': Desk, s: ScopeId)
    requires Next(issuer, w, Cascade(revoked, ended), w')
    ensures Current(w'.events, DataSlot(issuer, s)) == Current(w.events, DataSlot(issuer, s))
            || exists e :: e in LoadIndex(w.events, issuer).issued && e.scope == s && Cut(w'.events, issuer, e, w.drawn)
  {
    hide Current, LoadIndex;
    var index := LoadIndex(w.events, issuer);
    var doomed := Scopes(index.issued) * DescendantScopes(Loaded(index.children), issuer, revoked);
    if s in doomed {
      var e :| e in index.issued && e.scope == s;
      assert e.scope in doomed;
    }
  }

  lemma CascadeWire(issuer: Pub, w: Desk, revoked: ParentRef, ended: bool, w': Desk)
    requires Inv(issuer, w) && Next(issuer, w, Cascade(revoked, ended), w')
    ensures Wire(issuer, w'.events)
    ensures forall s | HasData(w.events, issuer, s) :: HasData(w'.events, issuer, s)
  {
    hide Current, LoadIndex;
    forall s
      ensures Current(w'.events, DataSlot(issuer, s)) == Current(w.events, DataSlot(issuer, s))
              || exists e ::
                 e in LoadIndex(w.events, issuer).issued && e.scope == s && Cut(w'.events, issuer, e, w.drawn)
    {
      CascadeSets(issuer, w, revoked, ended, w', s);
    }
    CascadedDistinct(issuer, LoadIndex(w.events, issuer), revoked);
    forall to, g | GrantEvent(to, g) in w'.events && g.publisher == issuer
      ensures HasData(w'.events, issuer, g.scope) && g.v <= DataAt(w'.events, issuer, g.scope).v
      ensures forall e | e in LoadIndex(w'.events, issuer).issued && e.scope == g.scope :: g.v <= e.v
    {
      assert GrantEvent(to, g) in w.events;
    }
  }

  lemma CascadeBooks(issuer: Pub, w: Desk, revoked: ParentRef, ended: bool, w': Desk)
    requires Inv(issuer, w) && Next(issuer, w, Cascade(revoked, ended), w')
    ensures Books(issuer, w'.events)
  {
    hide Current, LoadIndex;
    var index, index' := LoadIndex(w.events, issuer), LoadIndex(w'.events, issuer);
    CascadeWire(issuer, w, revoked, ended, w');
    CascadedDistinct(issuer, index, revoked);
    forall r | r in index'.children
      ensures HasData(w'.events, issuer, r.child.scope)
      ensures r.state.Live? ==> r.child.scope in Scopes(index'.issued)
      ensures r.state.Severed? ==>
              r.child.scope !in Scopes(index'.issued) && SeveredOnRelay(w'.events, issuer, r.child.scope)
    {
      CascadedRow(issuer, w, revoked, ended, w', r);
    }
  }

  lemma CascadedRow(issuer: Pub, w: Desk, revoked: ParentRef, ended: bool, w': Desk, r: DerivedChild)
    requires Inv(issuer, w) && Next(issuer, w, Cascade(revoked, ended), w')
    requires r in LoadIndex(w'.events, issuer).children
    ensures HasData(w.events, issuer, r.child.scope)
    ensures r.state.Live? ==> r.child.scope in Scopes(LoadIndex(w'.events, issuer).issued)
    ensures r.state.Severed? ==>
              r.child.scope !in Scopes(LoadIndex(w'.events, issuer).issued)
                  && SeveredOnRelay(w'.events, issuer, r.child.scope)
  {
    hide Current, LoadIndex;
    var index := LoadIndex(w.events, issuer);
    if ended {
      CascadedBooks(issuer, index, revoked, r);
    }
    var x :| x in index.children && (r == x || r == x.(state := Severed));
    if r.state.Severed? {
      if r in index.children {
        SeveredStays(issuer, w, revoked, ended, w', r);
      } else {
        var e :| e in index.issued && e.scope == r.child.scope;
        JustCut(issuer, w, w', e);
      }
    }
  }

  lemma SeveredStays(issuer: Pub, w: Desk, revoked: ParentRef, ended: bool, w': Desk, r: DerivedChild)
    requires Inv(issuer, w) && Next(issuer, w, Cascade(revoked, ended), w')
    requires r in LoadIndex(w.events, issuer).children && r.state.Severed?
    ensures SeveredOnRelay(w'.events, issuer, r.child.scope)
  {
    hide Current, LoadIndex;
    assert r.child.scope !in Scopes(LoadIndex(w.events, issuer).issued);
    CascadeSets(issuer, w, revoked, ended, w', r.child.scope);
  }

  lemma JustCut(issuer: Pub, w: Desk, w': Desk, e: IssuedEntry)
    requires Inv(issuer, w) && SameGrants(w.events, w'.events)
    requires e in LoadIndex(w.events, issuer).issued && Cut(w'.events, issuer, e, w.drawn)
    ensures SeveredOnRelay(w'.events, issuer, e.scope)
  {
    hide Current, LoadIndex;
    forall to, g | GrantEvent(to, g) in w'.events && g.publisher == issuer
      ensures (g.scope == e.scope ==> g.v < DataAt(w'.events, issuer, e.scope).v)
              && g.key != DataAt(w'.events, issuer, e.scope).key
    {
      assert GrantEvent(to, g) in w.events && GrantEvent(to, g).body.GiftWrap?;
    }
  }

  lemma ElsewhereKeeps(issuer: Pub, w: Desk, e: Event, w': Desk)
    requires Inv(issuer, w) && Next(issuer, w, Elsewhere(e), w')
    ensures Inv(issuer, w') && LoadIndex(w'.events, issuer) == LoadIndex(w.events, issuer)
  {
    hide Current, Published;
    forall slot: Slot | slot.pubkey == issuer
      ensures OnePerSlot(w'.events) && Current(w'.events, slot) == Current(w.events, slot)
    {
      PublishReplaces(w.events, e, slot);
    }
    PublishKeepsSlots(w.events, e);
    SameOwnGrants(issuer, w.events, w'.events);
  }

  /** With the issuer's own data sets, index and grants unchanged, the invariant is unchanged. */
  lemma SameOwnGrants(issuer: Pub, events: seq<Event>, after: seq<Event>)
    requires Wire(issuer, events) && Books(issuer, events) && OnePerSlot(after)
    requires forall slot: Slot | slot.pubkey == issuer :: Current(after, slot) == Current(events, slot)
    requires forall to: Pub, g: Grant | g.publisher == issuer ::
             GrantEvent(to, g) in after <==> GrantEvent(to, g) in events
    ensures Wire(issuer, after) && Books(issuer, after) && LoadIndex(after, issuer) == LoadIndex(events, issuer)
  {
  }

  // ---------------------------------------------------------------- runs

  lemma NextKeeps(issuer: Pub, w: Desk, step: Step, w': Desk)
    requires Inv(issuer, w) && Next(issuer, w, step, w')
    ensures Inv(issuer, w')
  {
    hide Wire, Books;
    match step
    case Issue(_, _, _, _, _, _, _, _, _) => IssueKeeps(issuer, w, step, w');
    case Cascade(revoked, ended) =>
      CascadeWire(issuer, w, revoked, ended, w');
      CascadeBooks(issuer, w, revoked, ended, w');
    case Elsewhere(e) => ElsewhereKeeps(issuer, w, e, w');
  }

  lemma {:induction false} RunKeeps(issuer: Pub, ws: seq<Desk>, steps: seq<Step>, i: nat)
    requires Run(issuer, ws, steps) && i < |ws|
    ensures Inv(issuer, ws[i])
  {
    hide Next, Inv;
    if i == 0 {
      EmptyDesk(issuer);
    } else {
      RunKeeps(issuer, ws, steps, i - 1);
      NextKeeps(issuer, ws[i - 1], steps[i - 1], ws[i]);
    }
  }

  lemma EmptyDesk(issuer: Pub)
    ensures Inv(issuer, Desk([], 0, []))
  {
  }

  /** In every reachable index a tombstone is durable: no entry, and no grant ever handed out opens the scope again. */
  lemma TombstonesAreDurable(issuer: Pub, ws: seq<Desk>, steps: seq<Step>, i: nat, r: DerivedChild, to: Pub, g: Grant)
    requires Run(issuer, ws, steps) && i < |ws|
    requires r in LoadIndex(ws[i].events, issuer).children && r.state.Severed?
    ensures r.child.scope !in Scopes(LoadIndex(ws[i].events, issuer).issued)
    ensures SeveredOnRelay(ws[i].events, issuer, r.child.scope)
    ensures GrantEvent(to, g) in ws[i].events && g.publisher == issuer && g.scope == r.child.scope ==>
              FetchScope(ws[i].events, issuer, g.scope, g.v, g.key).Stale?
  {
    RunKeeps(issuer, ws, steps, i);
  }

  // ---------------------------------------------------------------- the budget over runs

  /** The parent and the grantee of a row. */
  function Reached(r: DerivedChild): Minted {
    Minted(r.parent.publisher, r.parent.scope, r.child.grantee)
  }

  function AllReached(rows: seq<DerivedChild>): (r: seq<Minted>)
    ensures |r| == |rows|
  {
    seq(|rows|, i requires 0 <= i < |rows| => Reached(rows[i]))
  }

  function For(publisher: Pub, scope: ScopeId): Minted -> bool {
    (m: Minted) => m.publisher == publisher && m.scope == scope
  }

  /** No parent has more than eight children on record, nor more than four grantees among them. */
  ghost predicate WithinBudget(minted: seq<Minted>) {
    forall publisher, scope :: var mine := Filter(For(publisher, scope), minted);
      |mine| <= MAX_CHILDREN && |set m | m in mine :: m.grantee| <= MAX_GRANTEES
  }

  lemma {:induction false} ReachedFilter(rows: seq<DerivedChild>, publisher: Pub, scope: ScopeId)
    ensures Filter(For(publisher, scope), AllReached(rows)) == AllReached(ChildrenOf(rows, publisher, scope))
  {
    if rows != [] {
      ReachedFilter(rows[1..], publisher, scope);
      assert For(publisher, scope)(Reached(rows[0])) == From(publisher, scope)(rows[0]);
      assert AllReached(rows) == [Reached(rows[0])] + AllReached(rows[1..]);
      var rest := ChildrenOf(rows[1..], publisher, scope);
      assert AllReached([rows[0]] + rest) == [Reached(rows[0])] + AllReached(rest);
    }
  }

  lemma ReachedGrantees(rows: seq<DerivedChild>)
    ensures (set m | m in AllReached(rows) :: m.grantee) == GranteesOf(rows)
  {
    forall p | p in GranteesOf(rows)
      ensures p in (set m | m in AllReached(rows) :: m.grantee)
    {
      var i: nat :| i < |rows| && rows[i].child.grantee == p;
      assert AllReached(rows)[i] == Reached(rows[i]);
    }
  }

  /** An admitted issuance keeps its own parent, and leaves every other parent, within the budget. */
  lemma AdmittedStaysWithin(rows: seq<DerivedChild>, row: DerivedChild, defaulted: bool)
    requires WithinBudget(AllReached(rows))
    requires AdmitsAnother(Bound(MAX_CHILDREN, MAX_GRANTEES, defaulted),
                           ChildrenOf(rows, row.parent.publisher, row.parent.scope), row.child.grantee)
    ensures WithinBudget(AllReached(rows + [row]))
  {
    hide AdmitsAnother, ChildrenOf, Filter;
    assert AllReached(rows + [row]) == AllReached(rows) + [Reached(row)];
    forall publisher, scope
      ensures var mine := Filter(For(publisher, scope), AllReached(rows) + [Reached(row)]);
              |mine| <= MAX_CHILDREN && |set m | m in mine :: m.grantee| <= MAX_GRANTEES
    {
      FilterAppend(For(publisher, scope), AllReached(rows), [Reached(row)]);
      OneMoreReached(rows, row, defaulted, publisher, scope);
    }
  }

  lemma OneMoreReached(rows: seq<DerivedChild>, row: DerivedChild, defaulted: bool, publisher: Pub, scope: ScopeId)
    requires WithinBudget(AllReached(rows))
    requires AdmitsAnother(Bound(MAX_CHILDREN, MAX_GRANTEES, defaulted),
                           ChildrenOf(rows, row.parent.publisher, row.parent.scope), row.child.grantee)
    ensures var mine := Filter(For(publisher, scope), AllReached(rows)) + Filter(For(publisher, scope), [Reached(row)]);
            |mine| <= MAX_CHILDREN && |set m | m in mine :: m.grantee| <= MAX_GRANTEES
  {
    hide AllReached;
    var mine := Filter(For(publisher, scope), AllReached(rows));
    if For(publisher, scope)(Reached(row)) {
      assert Filter(For(publisher, scope), [Reached(row)]) == [Reached(row)];
      ReachedFilter(rows, publisher, scope);
      ReachedGrantees(ChildrenOf(rows, publisher, scope));
      assert (set m | m in mine + [Reached(row)] :: m.grantee)
             == (set m | m in mine :: m.grantee) + {row.child.grantee};
    } else {
      assert Filter(For(publisher, scope), [Reached(row)]) == [];
      assert mine + [] == mine;
    }
  }

  /** Forgetting the oldest rows never breaks the budget. */
  lemma {:induction false} SuffixStaysWithin(minted: seq<Minted>, n: nat)
    requires WithinBudget(minted) && n <= |minted|
    ensures WithinBudget(minted[n..])
  {
    forall publisher, scope
      ensures var mine := Filter(For(publisher, scope), minted[n..]);
              |mine| <= MAX_CHILDREN && |set m | m in mine :: m.grantee| <= MAX_GRANTEES
    {
      var f := For(publisher, scope);
      assert minted == minted[..n] + minted[n..];
      FilterAppend(f, minted[..n], minted[n..]);
      SetMonotone(set m | m in Filter(f, minted[n..]) :: m.grantee, set m | m in Filter(f, minted) :: m.grantee);
    }
  }

  lemma {:induction false} SetMonotone(a: set<Pub>, b: set<Pub>)
    requires a <= b
    ensures |a| <= |b|
  {
    if a != {} {
      var x :| x in a;
      SetMonotone(a - {x}, b - {x});
    }
  }

  ghost predicate Budgeted(issuer: Pub, w: Desk) {
    var rows := LoadIndex(w.events, issuer).children;
    && WithinBudget(AllReached(rows))
    && |rows| <= LINEAGE_CAP && |rows| <= |w.minted|
    && AllReached(rows) == w.minted[|w.minted| - |rows|..]
    && (|w.minted| <= LINEAGE_CAP ==> |rows| == |w.minted|)
  }

  /** The gate never reads a bound other than the default one. */
  lemma GateAdmits(events: seq<Event>, issuer: Pub, parent: HeldGrant, recipient: Pub, name: string,
                   terms: DerivedTerms, now: int)
    requires Gate(events, issuer, parent, recipient, name, terms, now, ALL_ANSWERED).None?
    ensures AdmitsAnother(Bound(MAX_CHILDREN, MAX_GRANTEES, true),
                          ChildrenOf(Loaded(LoadIndex(events, issuer).children), parent.grant.publisher,
                                     parent.grant.scope), recipient)
  {
  }

  /** One more row and one more issuance, admitted by the default bound. */
  lemma MintedBudget(issuer: Pub, w: Desk, row: DerivedChild, w': Desk)
    requires Budgeted(issuer, w)
    requires var rows := LoadIndex(w.events, issuer).children;
             && LoadIndex(w'.events, issuer).children == Capped(rows + [row]) && w'.minted == w.minted + [Reached(row)]
             && AdmitsAnother(Bound(MAX_CHILDREN, MAX_GRANTEES, true),
                              ChildrenOf(rows, row.parent.publisher, row.parent.scope), row.child.grantee)
    ensures Budgeted(issuer, w')
  {
    hide LoadIndex, WithinBudget, AllReached, AdmitsAnother, ChildrenOf, Capped;
    RecordBudget(LoadIndex(w.events, issuer).children, row, w.minted);
  }

  lemma IssueBudget(issuer: Pub, w: Desk, step: Step, w': Desk)
    requires Inv(issuer, w) && Budgeted(issuer, w) && Next(issuer, w, step, w') && step.Issue?
    ensures Budgeted(issuer, w')
  {
    hide Current, LoadIndex, PublishedAll, Gate, WithinBudget, Wire, Books, KeysBelow, AllReached, AdmitsAnother,
         ChildrenOf, Capped, IssuePublishes;
    IssueKeeps(issuer, w, step, w');
    if step.published == 3 {
      hide Budgeted, Inv;
      assert Books(issuer, w.events);
      LoadedAll(issuer, w.events);
      GateAdmits(w.events, issuer, step.parent, step.recipient, step.name, step.terms, step.now);
      MintedBudget(issuer, w, ChildRow(step.parent, step.recipient, step.scope, step.name), w');
    }
  }

  lemma CascadeBudget(issuer: Pub, w: Desk, revoked: ParentRef, ended: bool, w': Desk)
    requires Books(issuer, w.events) && Budgeted(issuer, w) && Next(issuer, w, Cascade(revoked, ended), w')
    ensures Budgeted(issuer, w')
  {
    hide Wire, Books, KeysBelow, WithinBudget, AllReached, LoadIndex, CascadedIndex;
    CascadeSaves(issuer, w, revoked, ended, w');
    LoadedAll(issuer, w.events);
    CascadeReaches(issuer, LoadIndex(w.events, issuer), revoked);
  }

  lemma CascadeSaves(issuer: Pub, w: Desk, revoked: ParentRef, ended: bool, w': Desk)
    requires Next(issuer, w, Cascade(revoked, ended), w')
    ensures LoadIndex(w'.events, issuer) ==
            if ended then CascadedIndex(LoadIndex(w.events, issuer), issuer, revoked) else LoadIndex(w.events, issuer)
    ensures w'.minted == w.minted
  {
  }

  lemma BudgetKept(issuer: Pub, w: Desk, step: Step, w': Desk)
    requires Inv(issuer, w) && Budgeted(issuer, w) && Next(issuer, w, step, w')
    ensures Budgeted(issuer, w')
  {
    hide Wire, Books, WithinBudget, LoadIndex, AllReached;
    match step
    case Issue(_, _, _, _, _, _, _, _, _) => IssueBudget(issuer, w, step, w');
    case Cascade(revoked, ended) => CascadeBudget(issuer, w, revoked, ended, w');
    case Elsewhere(e) => ElsewhereKeeps(issuer, w, e, w');
  }

  lemma RecordBudget(rows: seq<DerivedChild>, row: DerivedChild, minted: seq<Minted>)
    requires WithinBudget(AllReached(rows)) && |rows| <= LINEAGE_CAP && |rows| <= |minted|
    requires AllReached(rows) == minted[|minted| - |rows|..]
    requires |minted| <= LINEAGE_CAP ==> |rows| == |minted|
    requires AdmitsAnother(Bound(MAX_CHILDREN, MAX_GRANTEES, true),
                           ChildrenOf(rows, row.parent.publisher, row.parent.scope), row.child.grantee)
    ensures var rows', minted' := Capped(rows + [row]), minted + [Reached(row)];
            && WithinBudget(AllReached(rows')) && |rows'| <= LINEAGE_CAP && |rows'| <= |minted'|
            && AllReached(rows') == minted'[|minted'| - |rows'|..]
            && (|minted'| <= LINEAGE_CAP ==> |rows'| == |minted'|)
  {
    AdmittedStaysWithin(rows, row, true);
    var rows', minted' := Capped(rows + [row]), minted + [Reached(row)];
    var n := |rows| + 1 - |rows'|;
    SuffixStaysWithin(AllReached(rows + [row]), n);
    assert AllReached(rows') == AllReached(rows + [row])[n..];
    assert AllReached(rows + [row]) == AllReached(rows) + [Reached(row)];
  }

  lemma CascadeReaches(issuer: Pub, index: Index, revoked: ParentRef)
    requires Loaded(index.children) == index.children && |index.children| <= LINEAGE_CAP
    ensures |CascadedIndex(index, issuer, revoked).children| == |index.children|
    ensures AllReached(CascadedIndex(index, issuer, revoked).children) == AllReached(index.children)
  {
  }

  /** In every run each parent has at most eight recorded children and four grantees; while the lineage has never
      overflowed, that bounds every issuance that ever completed, revoked ones included. */
  lemma {:induction false} BudgetOverRuns(issuer: Pub, ws: seq<Desk>, steps: seq<Step>, i: nat)
    requires Run(issuer, ws, steps) && i < |ws|
    ensures Budgeted(issuer, ws[i])
    ensures WithinBudget(AllReached(LoadIndex(ws[i].events, issuer).children))
    ensures |ws[i].minted| <= LINEAGE_CAP ==> WithinBudget(ws[i].minted)
  {
    hide Next, Inv, LoadIndex;
    if i == 0 {
      NoRowsYet(issuer);
    } else {
      BudgetOverRuns(issuer, ws, steps, i - 1);
      RunKeeps(issuer, ws, steps, i - 1);
      BudgetKept(issuer, ws[i - 1], steps[i - 1], ws[i]);
    }
  }

  /** Overflow or not: a parent none of whose rows was trimmed is within the budget with all its issuances. */
  lemma UntrimmedStaysWithin(issuer: Pub, ws: seq<Desk>, steps: seq<Step>, i: nat, publisher: Pub, scope: ScopeId)
    requires Run(issuer, ws, steps) && i < |ws|
    requires var trimmed := |ws[i].minted| - |LoadIndex(ws[i].events, issuer).children|;
             forall k | 0 <= k < trimmed && k < |ws[i].minted| :: !For(publisher, scope)(ws[i].minted[k])
    ensures var mine := Filter(For(publisher, scope), ws[i].minted);
            |mine| <= MAX_CHILDREN && |set m | m in mine :: m.grantee| <= MAX_GRANTEES
  {
    hide LoadIndex, Run, Filter, AllReached;
    BudgetOverRuns(issuer, ws, steps, i);
    var minted, rows := ws[i].minted, LoadIndex(ws[i].events, issuer).children;
    NoneBefore(minted, |minted| - |rows|, publisher, scope);
    assert WithinBudget(AllReached(rows)) && AllReached(rows) == minted[|minted| - |rows|..];
  }

  lemma NoneBefore(minted: seq<Minted>, n: nat, publisher: Pub, scope: ScopeId)
    requires n <= |minted| && forall k | 0 <= k < n :: !For(publisher, scope)(minted[k])
    ensures Filter(For(publisher, scope), minted) == Filter(For(publisher, scope), minted[n..])
  {
    hide For, Filter;
    assert minted == minted[..n] + minted[n..];
    FilterAppend(For(publisher, scope), minted[..n], minted[n..]);
    NoneFor(minted[..n], publisher, scope);
  }

  lemma {:induction false} NoneFor(minted: seq<Minted>, publisher: Pub, scope: ScopeId)
    requires forall k | 0 <= k < |minted| :: !For(publisher, scope)(minted[k])
    ensures Filter(For(publisher, scope), minted) == []
  {
    if minted != [] {
      NoneFor(minted[1..], publisher, scope);
    }
  }

  lemma NoRowsYet(issuer: Pub)
    ensures Budgeted(issuer, Desk([], 0, []))
  {
  }

  /** Beyond the cap the guarantee about history ends: a full lineage whose oldest row belongs to a spent parent
      admits a ninth child of that parent as soon as any other parent gets a row. */
  lemma OverflowReopensBudget(rows: seq<DerivedChild>, row: DerivedChild)
    requires |rows| == LINEAGE_CAP
    requires var p := rows[0].parent;
             |ChildrenOf(rows, p.publisher, p.scope)| == MAX_CHILDREN && !From(p.publisher, p.scope)(row)
    ensures var p := rows[0].parent; var mine := ChildrenOf(Capped(rows + [row]), p.publisher, p.scope);
            |mine| == MAX_CHILDREN - 1 &&
            forall r | r in mine :: AdmitsAnother(Bound(MAX_CHILDREN, MAX_GRANTEES, true), mine, r.child.grantee)
  {
    var p := rows[0].parent;
    var f := From(p.publisher, p.scope);
    assert Capped(rows + [row]) == rows[1..] + [row];
    FilterAppend(f, rows[1..], [row]);
    assert Filter(f, [row]) == [];
    assert ChildrenOf(rows, p.publisher, p.scope) == [rows[0]] + Filter(f, rows[1..]);
  }
}
