/** mcp/src/subgrants.ts and mcp/src/redelegate-bound.ts: deriving a child scope from a held grant. */
module Redelegation {
  import opened Options
  import opened Sequences
  import opened Records
  import opened Relays
  import opened GrantTerms
  import opened Lineage

  // ---------------------------------------------------------------- the budget

  const MAX_CHILDREN := 8
  const MAX_GRANTEES := 4

  /** What a parent may carry under `redelegate`. */
  datatype RedelegateField =
    | Absent
    | Flag(on: bool)
    | BoundObject(max_children: Option<Json>, max_grantees: Option<Json>)
    | Nonsense

  datatype Bound = Bound(maxChildren: nat, maxGrantees: nat, defaulted: bool)

  /** A limit of a bound object: the default when absent, nothing when it is not a positive integer. */
  function Limit(v: Option<Json>, default: nat): Option<nat> {
    if v.None? || v.value.JNull? then Some(default)
    else if v.value.JNum? && v.value.num > 0 then Some(v.value.num)
    else None
  }

  /** `boundOf`: the default for a bare flag, the delegator's own bound if it is tighter, otherwise a refusal. */
  function BoundOf(r: RedelegateField): Option<Bound> {
    match r
    case Absent => None
    case Flag(on) => if on then Some(Bound(MAX_CHILDREN, MAX_GRANTEES, true)) else None
    case Nonsense => None
    case BoundObject(c, g) =>
      match (Limit(c, MAX_CHILDREN), Limit(g, MAX_GRANTEES)) {
        case (Some(children), Some(grantees)) =>
          if children > MAX_CHILDREN || grantees > MAX_GRANTEES then None else Some(Bound(children, grantees, false))
        case _ => None
      }
  }

  function FieldOf(terms: Option<Terms>): RedelegateField {
    if terms.None? || terms.value.redelegate.None? then Absent else Flag(terms.value.redelegate.value)
  }

  /** The rows recorded for one parent scope, whatever the generation and the state. */
  function From(publisher: Pub, scope: ScopeId): DerivedChild -> bool {
    (r: DerivedChild) => r.parent.publisher == publisher && r.parent.scope == scope
  }

  function ChildrenOf(rows: seq<DerivedChild>, publisher: Pub, scope: ScopeId): seq<DerivedChild> {
    Filter(From(publisher, scope), rows)
  }

  function GranteesOf(rows: seq<DerivedChild>): set<Pub> {
    set r | r in rows :: r.child.grantee
  }

  /** `admitsAnother`. */
  predicate AdmitsAnother(bound: Bound, existing: seq<DerivedChild>, recipient: Pub) {
    && |existing| < bound.maxChildren
    && (recipient in GranteesOf(existing) || |GranteesOf(existing)| < bound.maxGrantees)
  }

  /** Every row was admitted on top of the rows before it. */
  ghost predicate AdmittedInTurn(bound: Bound, rows: seq<DerivedChild>) {
    forall i | 0 <= i < |rows| :: AdmitsAnother(bound, rows[..i], rows[i].child.grantee)
  }

  /** A bound is never wider than the estate defaults. */
  lemma BoundIsTight(field: RedelegateField)
    ensures BoundOf(field).Some? ==>
            0 < BoundOf(field).value.maxChildren <= MAX_CHILDREN && 0 < BoundOf(field).value.maxGrantees <= MAX_GRANTEES
  {
  }

  /** A limit that an object states, or the default where it states none. */
  ghost predicate States(v: Option<Json>, default: nat, limit: nat) {
    if v.None? || v == Some(JNull) then limit == default else v == Some(JNum(limit)) && limit > 0
  }

  /** Exactly `true` and objects that tighten are bounds: 8 children and 4 grantees by default, never more, and a limit
      that is no positive integer makes the whole object no bound. */
  lemma BoundIs(field: RedelegateField)
    ensures match BoundOf(field)
            case Some(b) =>
              if b.defaulted then field == Flag(true) && b.maxChildren == 8 && b.maxGrantees == 4
              else field.BoundObject? && States(field.max_children, 8, b.maxChildren)
                   && States(field.max_grantees, 4, b.maxGrantees) && b.maxChildren <= 8 && b.maxGrantees <= 4
            case None =>
              && field != Flag(true)
              && (field.BoundObject? ==> forall c: nat, g: nat ::
                    States(field.max_children, 8, c) && States(field.max_grantees, 4, g) ==> c > 8 || g > 4)
  {
  }

  lemma {:induction false} TurnsStayWithin(bound: Bound, rows: seq<DerivedChild>)
    requires AdmittedInTurn(bound, rows)
    ensures |rows| <= bound.maxChildren && |GranteesOf(rows)| <= bound.maxGrantees
    decreases |rows|
  {
    hide AdmittedInTurn;
    if rows != [] {
      var n := |rows| - 1;
      LastTurn(bound, rows);
      TurnsStayWithin(bound, rows[..n]);
      assert rows == rows[..n] + [rows[n]];
      assert GranteesOf(rows) == GranteesOf(rows[..n]) + {rows[n].child.grantee};
    } else {
      assert GranteesOf(rows) == {};
    }
  }

  lemma LastTurn(bound: Bound, rows: seq<DerivedChild>)
    requires AdmittedInTurn(bound, rows) && rows != []
    ensures AdmitsAnother(bound, rows[..|rows| - 1], rows[|rows| - 1].child.grantee)
    ensures AdmittedInTurn(bound, rows[..|rows| - 1])
  {
    hide AdmitsAnother;
    assert forall i | 0 <= i < |rows| - 1 :: rows[..|rows| - 1][..i] == rows[..i];
  }

  /** Whatever a parent carries, children admitted one by one exceed neither its own bound nor the estate defaults. */
  lemma BoundHolds(field: RedelegateField, rows: seq<DerivedChild>)
    requires BoundOf(field).Some? && AdmittedInTurn(BoundOf(field).value, rows)
    ensures var b := BoundOf(field).value;
            |rows| <= b.maxChildren <= MAX_CHILDREN && |GranteesOf(rows)| <= b.maxGrantees <= MAX_GRANTEES
  {
    BoundIsTight(field);
    TurnsStayWithin(BoundOf(field).value, rows);
  }

  // ---------------------------------------------------------------- the gate

  datatype DerivedTerms = DerivedTerms(
    purpose: string,
    expires_at: Option<int>,
    redelegate: Option<bool>,
    no_persist: Option<bool>,
    reply_scope_requested: Option<bool>,
    auto_relinquish: Option<bool>,
    contact: Option<string>)

  predicate Blank(c: char) { c == ' ' || c == '\t' || c == '\n' || c == '\r' }

  function TrimLeft(s: string): string {
    if s != "" && Blank(s[0]) then TrimLeft(s[1..]) else s
  }

  function Trim(s: string): string
    decreases |s|
  {
    var left := TrimLeft(s);
    TrimRight(left)
  }

  function TrimRight(s: string): string {
    if s != "" && Blank(s[|s| - 1]) then TrimRight(s[..|s| - 1]) else s
  }

  datatype Refusal =
    NotActive | NotPermitted | NoPersist | NoPurpose | OutlivesParent | BudgetSpent | NotReadable | BadName

  /** `validate`. */
  function Validate(parent: HeldGrant, terms: DerivedTerms, now: int): Option<Refusal> {
    if StatusOf(parent, now) != Active then Some(NotActive)
    else if parent.grant.terms.None? || parent.grant.terms.value.redelegate != Some(true) then Some(NotPermitted)
    else if parent.grant.terms.value.no_persist == Some(true) then Some(NoPersist)
    else if Trim(terms.purpose) == "" then Some(NoPurpose)
    else if Deadline(parent).Some? && (terms.expires_at.None? || terms.expires_at.value > Deadline(parent).value)
    then Some(OutlivesParent)
    else None
  }

  /** The terms that travel with the child. */
  function ChildTerms(t: DerivedTerms): Terms {
    Terms(1, Some(Trim(t.purpose)), t.expires_at, t.no_persist, Some(t.redelegate == Some(true)),
          t.reply_scope_requested, t.contact, t.auto_relinquish)
  }

  /** The child as its leaf reads it off the wrap. */
  function Delivered(issuer: Pub, scope: ScopeId, scopeKey: Json, name: string, key: Key,
                     terms: DerivedTerms): HeldGrant {
    HeldGrant(Grant(issuer, scope, name, 1, key, ParseTerms(GrantContent(scopeKey, name, Some(ChildTerms(terms))))),
              None, false, false)
  }

  ghost predicate AllBlank(s: string) {
    forall c | c in s :: Blank(c)
  }

  /** `p` is `s` without the blanks at its ends. */
  ghost predicate Trimmed(s: string, p: string) {
    && (p != "" ==> !Blank(p[0]) && !Blank(p[|p| - 1]))
    && exists i, j :: 0 <= i <= j <= |s| && p == s[i..j] && AllBlank(s[..i]) && AllBlank(s[j..])
  }

  lemma {:induction false} TrimsLeft(s: string) returns (i: nat)
    ensures i <= |s| && TrimLeft(s) == s[i..] && AllBlank(s[..i])
    ensures i < |s| ==> !Blank(s[i])
  {
    i := 0;
    if s != "" && Blank(s[0]) {
      var k := TrimsLeft(s[1..]);
      i := k + 1;
      assert s[..i] == [s[0]] + s[1..][..k];
    }
  }

  lemma {:induction false} TrimsRight(s: string) returns (j: nat)
    ensures j <= |s| && TrimRight(s) == s[..j] && AllBlank(s[j..])
    ensures j > 0 ==> !Blank(s[j - 1])
  {
    j := |s|;
    if s != "" && Blank(s[|s| - 1]) {
      var n := |s| - 1;
      j := TrimsRight(s[..n]);
      assert s[j..] == s[..n][j..] + [s[n]];
    }
  }

  lemma TrimIs(s: string)
    ensures Trimmed(s, Trim(s))
    ensures Trim(s) == "" <==> AllBlank(s)
  {
    var i := TrimsLeft(s);
    var left := s[i..];
    var j := TrimsRight(left);
    assert left[..j] == s[i..i + j] && left[j..] == s[i + j..];
    if Trim(s) == "" {
      assert s == s[..i] + s[i..];
    } else {
      assert s[i] in s;
    }
  }

  /** What the leaf reads: the caller's own terms, a trimmed purpose, and permission for a further hop if and only if
      the caller gave it in so many words. */
  lemma LeafReads(issuer: Pub, scope: ScopeId, scopeKey: Json, name: string, key: Key, t: DerivedTerms)
    ensures var child := Delivered(issuer, scope, scopeKey, name, key, t);
            && !child.revoked && !child.relinquished && child.expiration == None
            && child.grant.publisher == issuer && child.grant.scope == scope && child.grant.scope_name == name
            && child.grant.v == 1 && child.grant.key == key && child.grant.terms.Some?
            && LeafTerms(t, child.grant.terms.value)
  {
    TermsSurviveDelivery(scopeKey, name, Some(ChildTerms(t)));
    TrimIs(t.purpose);
  }

  ghost predicate LeafTerms(t: DerivedTerms, read: Terms) {
    && read.nvoy == 1
    && (read.redelegate == Some(true) <==> t.redelegate == Some(true)) && read.redelegate.Some?
    && read.expires_at == t.expires_at && read.no_persist == t.no_persist
    && read.reply_scope_requested == t.reply_scope_requested && read.auto_relinquish == t.auto_relinquish
    && read.contact == t.contact
    && read.purpose.Some? && Trimmed(t.purpose, read.purpose.value)
  }

  /** A leaf that was not told so never re-delegates, whatever it asks for and whenever. */
  lemma LeafIsALeaf(issuer: Pub, scope: ScopeId, scopeKey: Json, name: string, key: Key, t: DerivedTerms,
                    child: HeldGrant, further: DerivedTerms, now: int)
    requires t.redelegate != Some(true) && child.grant == Delivered(issuer, scope, scopeKey, name, key, t).grant
    ensures Validate(child, further, now).Some?
    ensures StatusOf(child, now) == Active ==> Validate(child, further, now) == Some(NotPermitted)
  {
    LeafReads(issuer, scope, scopeKey, name, key, t);
  }

  /** What a parent must be, and what must be asked, for a child to be issued. */
  lemma ValidateIs(parent: HeldGrant, t: DerivedTerms, now: int)
    ensures Validate(parent, t, now).None? <==>
            && StatusOf(parent, now) == Active && parent.grant.terms.Some?
            && parent.grant.terms.value.redelegate == Some(true)
            && parent.grant.terms.value.no_persist != Some(true)
            && !AllBlank(t.purpose)
            && (Deadline(parent).Some? ==> t.expires_at.Some? && t.expires_at.value <= Deadline(parent).value)
    ensures match Validate(parent, t, now)
            case None => true
            case Some(why) =>
              match why
              case NotActive => StatusOf(parent, now) != Active
              case NotPermitted => parent.grant.terms.None? || parent.grant.terms.value.redelegate != Some(true)
              case NoPersist => parent.grant.terms.Some? && parent.grant.terms.value.no_persist == Some(true)
              case NoPurpose => AllBlank(t.purpose)
              case OutlivesParent =>
                Deadline(parent).Some? && (t.expires_at.None? || t.expires_at.value > Deadline(parent).value)
              case _ => false
  {
    TrimIs(t.purpose);
  }

  // ---------------------------------------------------------------- attenuation along chains

  /** `child` is what some leaf may hold after `parent` was re-delegated. */
  ghost predicate DerivedFrom(parent: HeldGrant, child: HeldGrant) {
    exists terms: DerivedTerms, now: int, scopeKey: Json ::
      && Validate(parent, terms, now).None?
      && var g := child.grant;
         child.(revoked := false, relinquished := false)
             == Delivered(g.publisher, g.scope, scopeKey, g.scope_name, g.key, terms)
  }

  ghost predicate DerivationChain(gs: seq<HeldGrant>) {
    forall i | 0 < i < |gs| :: DerivedFrom(gs[i - 1], gs[i])
  }

  lemma OneHop(parent: HeldGrant, child: HeldGrant)
    requires DerivedFrom(parent, child)
    ensures parent.grant.terms.Some? && parent.grant.terms.value.redelegate == Some(true)
    ensures parent.grant.terms.value.no_persist != Some(true)
    ensures Deadline(parent).Some? ==> Deadline(child).Some? && Deadline(child).value <= Deadline(parent).value
  {
    var terms: DerivedTerms, now: int, scopeKey: Json :|
      && Validate(parent, terms, now).None?
      && var g := child.grant;
         child.(revoked := false, relinquished := false)
             == Delivered(g.publisher, g.scope, scopeKey, g.scope_name, g.key, terms);
    TermsSurviveDelivery(scopeKey, child.grant.scope_name, Some(ChildTerms(terms)));
  }

  /** However long the chain, a descendant never outlives an ancestor, and every ancestor allowed the hop. */
  lemma {:induction false} Attenuates(gs: seq<HeldGrant>, i: nat, j: nat)
    requires DerivationChain(gs) && i < j < |gs|
    ensures Deadline(gs[i]).Some? ==> Deadline(gs[j]).Some? && Deadline(gs[j]).value <= Deadline(gs[i]).value
    ensures gs[i].grant.terms.Some? && gs[i].grant.terms.value.redelegate == Some(true)
    ensures gs[i].grant.terms.value.no_persist != Some(true)
  {
    OneHop(gs[j - 1], gs[j]);
    if i < j - 1 {
      Attenuates(gs, i, j - 1);
    }
  }

  /** A descendant is never active at a time at which an ancestor has expired. */
  lemma ExpiryReachesDescendants(gs: seq<HeldGrant>, i: nat, j: nat, now: int)
    requires DerivationChain(gs) && i < j < |gs| && StatusOf(gs[i], now) == Expired
    ensures StatusOf(gs[j], now) != Active
  {
    Attenuates(gs, i, j);
  }

  // ---------------------------------------------------------------- issuing

  datatype Outcome =
    | Issued(scope: ScopeId)
    | Refused(why: Refusal)
    | Broken(published: nat)

  /** Which queries of an issuance are answered: the index load before the budget check, the read of the parent's data
      set, and the index load before the record is written. */
  datatype Answers = Answers(index: bool, parent: bool, record: bool)

  const ALL_ANSWERED := Answers(true, true, true)

  /** Everything that must hold before the first publish, given what the two queries found. */
  function GateWith(index: Index, fetched: Fetched, parent: HeldGrant, recipient: Pub, name: string,
                    terms: DerivedTerms, now: int): Option<Refusal> {
    if Validate(parent, terms, now).Some? then Validate(parent, terms, now)
    else
      match BoundOf(FieldOf(parent.grant.terms))
      case None => Some(NotPermitted)
      case Some(bound) =>
        var mine := ChildrenOf(Loaded(index.children), parent.grant.publisher, parent.grant.scope);
        if !AdmitsAnother(bound, mine, recipient) then Some(BudgetSpent)
        else if !fetched.Read? then Some(NotReadable)
        else if !("derived:" <= name) then Some(BadName)
        else None
  }

  function Gate(events: seq<Event>, issuer: Pub, parent: HeldGrant, recipient: Pub, name: string, terms: DerivedTerms,
                now: int, a: Answers): Option<Refusal> {
    var g := parent.grant;
    GateWith(LoadAnswered(events, issuer, a.index), FetchAnswered(events, g.publisher, g.scope, g.v, g.key, a.parent),
             parent, recipient, name, terms, now)
  }

  function ChildRow(parent: HeldGrant, recipient: Pub, scope: ScopeId, name: string): DerivedChild {
    DerivedChild(ParentRef(parent.grant.publisher, parent.grant.scope, parent.grant.v),
                 ChildRef(scope, 1, recipient, name), Live)
  }

  /** The index once the child is recorded. */
  function WithChild(index: Index, parent: HeldGrant, recipient: Pub, scope: ScopeId, name: string, key: Key): Index {
    Index(index.issued + [IssuedEntry(scope, name, 1, key, [recipient])], index.ledger,
          Capped(Loaded(index.children) + [ChildRow(parent, recipient, scope, name)]))
  }

  /** The three publishes of an issuance, in order. */
  function IssuePublishes(events: seq<Event>, issuer: Pub, parent: HeldGrant, recipient: Pub, data: Payload,
                          name: string, terms: DerivedTerms, scope: ScopeId, key: Key, ts: int,
                              a: Answers): (es: seq<Event>)
    ensures |es| == 3 && forall e | e in es :: e.signed
  {
    [SetEvent(issuer, scope, ts, 1, key, data),
     GrantEvent(recipient, Grant(issuer, scope, name, 1, key, Some(ChildTerms(terms)))),
     IndexEvent(issuer, ts + 1, WithChild(LoadAnswered(events, issuer, a.record), parent, recipient, scope, name, key))]
  }

  /** The checks pass exactly when the caller may derive such a child, the parent's budget is not spent, the parent's
      data set was read, and the name is a derived one; and a refusal names a check that does not pass. */
  lemma GateIs(index: Index, fetched: Fetched, parent: HeldGrant, recipient: Pub, name: string, terms: DerivedTerms,
               now: int)
    ensures var mine := ChildrenOf(Loaded(index.children), parent.grant.publisher, parent.grant.scope);
            var admitted := |mine| < 8 && (recipient in GranteesOf(mine) || |GranteesOf(mine)| < 4);
            var gate := GateWith(index, fetched, parent, recipient, name, terms, now);
            && (gate.None? <==>
                && Validate(parent, terms, now).None? && admitted && fetched.Read?
                && |name| >= 8 && name[..8] == "derived:")
            && (Validate(parent, terms, now).Some? ==> gate == Validate(parent, terms, now))
            && (gate == Some(BudgetSpent) ==> !admitted)
            && (gate == Some(NotReadable) ==> !fetched.Read?)
            && (gate == Some(BadName) ==> |name| < 8 || name[..8] != "derived:")
  {
    ValidateIs(parent, terms, now);
  }

  /** What an issuance publishes: a first generation of a new scope under a new key, that key for the recipient alone
      with the terms that were asked for, and the index with one more entry and one more row, the oldest making room. */
  lemma PublishesAre(events: seq<Event>, issuer: Pub, parent: HeldGrant, recipient: Pub, data: Payload, name: string,
                     terms: DerivedTerms, scope: ScopeId, key: Key, ts: int, a: Answers)
    ensures var es := IssuePublishes(events, issuer, parent, recipient, data, name, terms, scope, key, ts, a);
            var index := LoadAnswered(events, issuer, a.record);
            && ReplaceKey(es[0]) == Some(DataSlot(issuer, scope)) && es[0].body == SealedSet(1, key, data)
            && es[0].created_at == ts < es[2].created_at
            && es[1].body.GiftWrap? && es[1].body.to == recipient
            && es[1].body.grant == Grant(issuer, scope, name, 1, key, es[1].body.grant.terms)
            && es[1].body.grant.terms.Some? && LeafTerms(terms, es[1].body.grant.terms.value)
            && ReplaceKey(es[2]) == Some(IndexSlot(issuer)) && es[2].body.SelfSealed?
            && Recorded(index, es[2].body.index, parent.grant, recipient, name, scope, key)
  {
    TrimIs(terms.purpose);
  }

  ghost predicate Recorded(before: Index, after: Index, parent: Grant, recipient: Pub, name: string, scope: ScopeId,
                           key: Key)
  {
    var rows, n := Loaded(before.children), if |Loaded(before.children)| < 500 then |Loaded(before.children)| else 499;
    && after.ledger == before.ledger
    && after.issued == before.issued + [IssuedEntry(scope, name, 1, key, [recipient])]
    && |after.children| == n + 1 && after.children[..n] == rows[|rows| - n..]
    && after.children[n] == DerivedChild(ParentRef(parent.publisher, parent.scope, parent.v),
                                         ChildRef(scope, 1, recipient, name), Live)
  }

  /** `issueDerivedGrant`: nothing is published unless every check passes; the row is recorded last, in the index as the
      last load brought it. */
  method IssueDerivedGrant(relay: Relay, issuer: Pub, parent: HeldGrant, recipient: Pub, data: Payload, name: string,
                           terms: DerivedTerms, now: int, scope: ScopeId, key: Key, ts: int, a: Answers)
    returns (r: Outcome)
    requires OnePerSlot(relay.events)
    modifies relay
    ensures var gate := Gate(old(relay.events), issuer, parent, recipient, name, terms, now, a);
            var es := IssuePublishes(old(relay.events), issuer, parent, recipient, data, name, terms, scope, key, ts,
                                     a);
            match r
            case Refused(why) => gate == Some(why) && relay.events == old(relay.events)
            case Broken(n) => gate == None && n < 3 && relay.events == PublishedAll(old(relay.events), es[..n])
                              && (relay.LastLost() || (n == 1 && !Hex64(recipient)))
            case Issued(s) =>
                gate == None && s == scope && Hex64(recipient) && relay.events == PublishedAll(old(relay.events), es)
  {
    hide Published, PublishedAll, LoadIndex, FetchAnswered, Validate, AdmitsAnother, Hex64;
    ghost var before := relay.events;
    ghost var es := IssuePublishes(before, issuer, parent, recipient, data, name, terms, scope, key, ts, a);
    var invalid := Validate(parent, terms, now);
    if invalid.Some? { return Refused(invalid.value); }
    var bound := BoundOf(FieldOf(parent.grant.terms));
    if bound.None? { return Refused(NotPermitted); }
    var idx := LoadAnswered(relay.events, issuer, a.index);
    var mine := ChildrenOf(Loaded(idx.children), parent.grant.publisher, parent.grant.scope);
    if !AdmitsAnother(bound.value, mine, recipient) { return Refused(BudgetSpent); }
    var read := FetchAnswered(relay.events, parent.grant.publisher, parent.grant.scope, parent.grant.v,
                              parent.grant.key, a.parent);
    if !read.Read? { return Refused(NotReadable); }
    if !("derived:" <= name) { return Refused(BadName); }

    PublishSteps(before, es);
    var ok := relay.Publish(SetEvent(issuer, scope, ts, 1, key, data));
    if !ok { return Broken(0); }
    // Wrapping for a recipient that is no public key throws.
    if !Hex64(recipient) { return Broken(1); }
    ok := relay.Publish(GrantEvent(recipient, Grant(issuer, scope, name, 1, key, Some(ChildTerms(terms)))));
    if !ok { return Broken(1); }
    IndexUntouched(before, es[0], es[1], issuer);
    var index := LoadAnswered(relay.events, issuer, a.record);
    ok := relay.Publish(IndexEvent(issuer, ts + 1, WithChild(index, parent, recipient, scope, name, key)));
    if !ok { return Broken(2); }
    return Issued(scope);
  }

  lemma PublishSteps(events: seq<Event>, es: seq<Event>)
    requires |es| == 3 && forall e | e in es :: e.signed
    ensures PublishedAll(events, es[..0]) == events
    ensures PublishedAll(events, es[..1]) == Published(events, es[0])
    ensures PublishedAll(events, es[..2]) == Published(Published(events, es[0]), es[1])
    ensures PublishedAll(events, es) == Published(Published(Published(events, es[0]), es[1]), es[2])
  {
  }

  lemma IndexUntouched(events: seq<Event>, a: Event, b: Event, issuer: Pub)
    requires OnePerSlot(events) && a.signed && b.signed
    requires ReplaceKey(a) != Some(IndexSlot(issuer)) && ReplaceKey(b) != Some(IndexSlot(issuer))
    ensures LoadIndex(Published(Published(events, a), b), issuer) == LoadIndex(events, issuer)
  {
    PublishReplaces(events, a, IndexSlot(issuer));
    PublishReplaces(Published(events, a), b, IndexSlot(issuer));
  }
}
