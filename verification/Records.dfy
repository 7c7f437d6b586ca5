/** The records that travel between the console, the relays and the agent runtime. */
module Records {
  import opened Options

  type Pub = string
  type ScopeId = string

  /** A 32-byte scope key. Keys are opaque: two draws of `newScopeKey` never coincide. */
  type Key = nat

  /** The decrypted document of a scope; the empty document is what a severed scope carries. */
  datatype Payload = Empty | Document(text: string)

  /** The nvoy terms of a grant, in the order of the TypeScript interface. */
  datatype Terms = Terms(
    nvoy: int,
    purpose: Option<string>,
    expires_at: Option<int>,
    no_persist: Option<bool>,
    redelegate: Option<bool>,
    reply_scope_requested: Option<bool>,
    contact: Option<string>,
    auto_relinquish: Option<bool>)

  /** A data grant: the key that opens one generation of a publisher's scope. */
  datatype Grant = Grant(
    publisher: Pub,
    scope: ScopeId,
    scope_name: string,
    v: nat,
    key: Key,
    terms: Option<Terms>)

  /** A grant in an agent's hands, with what the agent knows about it. */
  datatype HeldGrant = HeldGrant(
    grant: Grant,
    expiration: Option<int>,
    revoked: bool,
    relinquished: bool)

  /** What the publisher keeps about a scope it issued. */
  datatype IssuedEntry = IssuedEntry(
    scope: ScopeId,
    scope_name: string,
    v: nat,
    key: Key,
    grantees: seq<Pub>)

  datatype LedgerEvent =
    | Granted(at: int, scope: ScopeId, agent: Pub, v: nat, terms: Option<Terms>, name: string)
    | Rotated(at: int, scope: ScopeId, from_v: nat, to_v: nat, survivors: nat)
    | Revoked(at: int, scope: ScopeId, agent: Pub, v: nat, reason: Option<string>, notice: bool)
    | Relinquished(at: int, scope: ScopeId, agent: Pub, v: nat, reason: Option<string>, destroyed_at: int)
    | ExpiredRotated(at: int, scope: ScopeId, from_v: nat, to_v: nat, expired: nat, survivors: nat)
    | Consumed(at: int, scope: ScopeId, publisher: Pub, name: string, outcome: string)

  /** The parent side of a re-delegation row. */
  datatype ParentRef = ParentRef(publisher: Pub, scope: ScopeId, generation: nat)

  datatype ChildRef = ChildRef(scope: ScopeId, generation: nat, grantee: Pub, scope_name: string)

  datatype RowState = Live | Severed

  /** One parent-to-child row of the sub-issuer's lineage. */
  datatype DerivedChild = DerivedChild(parent: ParentRef, child: ChildRef, state: RowState)

  /** The Grant Index: everything a key needs to recover what it issued. */
  datatype Index = Index(issued: seq<IssuedEntry>, ledger: seq<LedgerEvent>, children: seq<DerivedChild>)

  const EMPTY_INDEX := Index([], [], [])
}

/** Looking entries up in the issued list. */
module Entries {
  import opened Records

  function Scopes(issued: seq<IssuedEntry>): set<ScopeId> {
    set e | e in issued :: e.scope
  }

  ghost predicate UniqueScopes(issued: seq<IssuedEntry>) {
    forall i, j | 0 <= i < j < |issued| :: issued[i].scope != issued[j].scope
  }

  /** The position of the entry for `scope`, or `|issued|`. */
  function EntryAt(issued: seq<IssuedEntry>, scope: ScopeId): (i: nat)
    ensures i <= |issued|
    ensures i < |issued| ==> issued[i].scope == scope
    ensures forall j | 0 <= j < i :: issued[j].scope != scope
    ensures i < |issued| <==> scope in Scopes(issued)
  {
    if issued == [] then 0
    else if issued[0].scope == scope then assert issued[0] in issued; 0
    else
      assert forall e | e in issued :: e == issued[0] || e in issued[1..];
      1 + EntryAt(issued[1..], scope)
  }
}
