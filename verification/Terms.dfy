/** mcp/src/terms.ts and the status rules of mcp/src/grants.ts. */
module GrantTerms {
  import opened Options
  import opened Records

  datatype Json =
    | JNull
    | JBool(flag: bool)
    | JNum(num: int)
    | JStr(str: string)
    | JArr(items: seq<Json>)
    | JObj(fields: map<string, Json>)

  function TakeString(src: map<string, Json>, key: string): Option<string> {
    if key in src && src[key].JStr? then Some(src[key].str) else None
  }

  function TakeNumber(src: map<string, Json>, key: string): Option<int> {
    if key in src && src[key].JNum? then Some(src[key].num) else None
  }

  function TakeFlag(src: map<string, Json>, key: string): Option<bool> {
    if key in src && src[key].JBool? then Some(src[key].flag) else None
  }

  /** The object that carries the terms: nested under `nvoy`, or the content itself. */
  function Carrier(content: Json): Option<map<string, Json>> {
    if !content.JObj? || "nvoy" !in content.fields then None
    else if content.fields["nvoy"].JObj? then Some(content.fields["nvoy"].fields)
    else if content.fields["nvoy"].JNum? then Some(content.fields)
    else None
  }

  /** `parseTerms`: a tolerant reader, where a field of the wrong type is absent. */
  function ParseTerms(content: Json): Option<Terms> {
    match Carrier(content)
    case None => None
    case Some(src) => Some(TermsIn(src))
  }

  function TermsIn(src: map<string, Json>): Terms {
    Terms(
      match TakeNumber(src, "nvoy") { case Some(n) => n case None => 1 },
      TakeString(src, "purpose"),
      TakeNumber(src, "expires_at"),
      TakeFlag(src, "no_persist"),
      TakeFlag(src, "redelegate"),
      TakeFlag(src, "reply_scope_requested"),
      TakeString(src, "contact"),
      TakeFlag(src, "auto_relinquish"))
  }

  const NAMES := ["nvoy", "purpose", "expires_at", "no_persist", "redelegate", "reply_scope_requested", "contact",
                  "auto_relinquish"]

  lemma NamesDiffer()
    ensures forall i, j | 0 <= i < j < |NAMES| :: NAMES[i] != NAMES[j]
  {
  }

  /** The value under name `i` of an encoded record. */
  function FieldValue(t: Terms, i: nat): Option<Json> {
    match i
    case 0 => Some(JNum(t.nvoy))
    case 1 => if t.purpose.Some? then Some(JStr(t.purpose.value)) else None
    case 2 => if t.expires_at.Some? then Some(JNum(t.expires_at.value)) else None
    case 3 => if t.no_persist.Some? then Some(JBool(t.no_persist.value)) else None
    case 4 => if t.redelegate.Some? then Some(JBool(t.redelegate.value)) else None
    case 5 => if t.reply_scope_requested.Some? then Some(JBool(t.reply_scope_requested.value)) else None
    case 6 => if t.contact.Some? then Some(JStr(t.contact.value)) else None
    case 7 => if t.auto_relinquish.Some? then Some(JBool(t.auto_relinquish.value)) else None
    case _ => None
  }

  function PutAll(t: Terms, n: nat): map<string, Json>
    requires n <= |NAMES|
  {
    if n == 0 then map[]
    else match FieldValue(t, n - 1)
      case Some(v) => PutAll(t, n - 1)[NAMES[n - 1] := v]
      case None => PutAll(t, n - 1)
  }

  lemma {:induction false} PutThenLook(t: Terms, n: nat)
    requires n <= |NAMES|
    ensures forall i | 0 <= i < |NAMES| ::
              if i < n && FieldValue(t, i).Some? then NAMES[i] in PutAll(t, n)
                  && PutAll(t, n)[NAMES[i]] == FieldValue(t, i).value
              else NAMES[i] !in PutAll(t, n)
  {
    NamesDiffer();
    if n > 0 {
      PutThenLook(t, n - 1);
    }
  }

  /** The JSON object of a terms record: `JSON.stringify` leaves absent fields out. */
  function EncodeTerms(t: Terms): Json {
    JObj(PutAll(t, |NAMES|))
  }

  /** The content of a delivered grant: key, name and, unless it is vanilla, the nested terms. */
  function GrantContent(scopeKey: Json, scopeName: string, terms: Option<Terms>): Json {
    var plain := map["scope_key" := scopeKey, "scope_name" := JStr(scopeName)];
    JObj(if terms.Some? then plain["nvoy" := EncodeTerms(terms.value)] else plain)
  }

  /** The content carries this key and this name beside any terms. */
  ghost predicate Bears(content: Json, scopeKey: Json, scopeName: string) {
    && content.JObj? && "scope_key" in content.fields && content.fields["scope_key"] == scopeKey
    && "scope_name" in content.fields && content.fields["scope_name"] == JStr(scopeName)
  }

  /** The object in which the terms lie: the one under `nvoy`, or, when that is a number, the content itself. */
  ghost predicate LiesIn(content: Json, src: map<string, Json>) {
    && content.JObj? && "nvoy" in content.fields
    && var nvoy := content.fields["nvoy"];
       (nvoy.JObj? && src == nvoy.fields) || (nvoy.JNum? && src == content.fields)
  }

  /** The reader is tolerant: there are terms exactly when there is an object for them, and each field is there exactly
      when it has its type; the version counts as 1 otherwise. */
  lemma ParseIs(content: Json)
    ensures match ParseTerms(content)
            case None => forall src :: !LiesIn(content, src)
            case Some(t) => exists src :: LiesIn(content, src) && ReadFrom(src, t)
  {
    hide ReadFrom;
    match Carrier(content)
    case Some(src) =>
      assert LiesIn(content, src);
      TermsInAre(src);
    case None =>
  }

  ghost predicate ReadFrom(src: map<string, Json>, t: Terms) {
    && (if NumberAt(src, "nvoy") then src["nvoy"] == JNum(t.nvoy) else t.nvoy == 1)
    && (forall x :: t.purpose == Some(x) <==> Field(src, "purpose", JStr(x)))
    && (forall x :: t.expires_at == Some(x) <==> Field(src, "expires_at", JNum(x)))
    && (forall x :: t.no_persist == Some(x) <==> Field(src, "no_persist", JBool(x)))
    && (forall x :: t.redelegate == Some(x) <==> Field(src, "redelegate", JBool(x)))
    && (forall x :: t.reply_scope_requested == Some(x) <==> Field(src, "reply_scope_requested", JBool(x)))
    && (forall x :: t.contact == Some(x) <==> Field(src, "contact", JStr(x)))
    && (forall x :: t.auto_relinquish == Some(x) <==> Field(src, "auto_relinquish", JBool(x)))
  }

  lemma TermsInAre(src: map<string, Json>)
    ensures ReadFrom(src, TermsIn(src))
  {
  }

  ghost predicate Field(src: map<string, Json>, key: string, value: Json) {
    key in src && src[key] == value
  }

  ghost predicate NumberAt(src: map<string, Json>, key: string) {
    key in src && src[key].JNum?
  }

  /** Delivering terms and parsing them again loses nothing, and a vanilla grant stays vanilla. */
  lemma TermsSurviveDelivery(scopeKey: Json, scopeName: string, terms: Option<Terms>)
    ensures ParseTerms(GrantContent(scopeKey, scopeName, terms)) == terms
    ensures Bears(GrantContent(scopeKey, scopeName, terms), scopeKey, scopeName)
  {
    var content := GrantContent(scopeKey, scopeName, terms);
    assert |"nvoy"| == 4 && |"scope_key"| == 9 && |"scope_name"| == 10;
    if terms.Some? {
      PutThenLook(terms.value, |NAMES|);
      assert Carrier(content) == Some(PutAll(terms.value, |NAMES|));
      forall i | 0 <= i < |NAMES|
        ensures NAMES[i] in PutAll(terms.value, |NAMES|) <==> FieldValue(terms.value, i).Some?
        ensures FieldValue(terms.value, i).Some? ==>
                PutAll(terms.value, |NAMES|)[NAMES[i]] == FieldValue(terms.value, i).value
      {
      }
      FieldsReadBack(terms.value, PutAll(terms.value, |NAMES|));
    }
  }

  lemma FieldsReadBack(t: Terms, src: map<string, Json>)
    requires forall i | 0 <= i < |NAMES| ::
               if FieldValue(t, i).Some? then NAMES[i] in src && src[NAMES[i]] == FieldValue(t, i).value
                   else NAMES[i] !in src
    ensures TermsIn(src) == t
  {
    assert NAMES[0] == "nvoy" && NAMES[1] == "purpose" && NAMES[2] == "expires_at" && NAMES[3] == "no_persist";
    assert NAMES[4] == "redelegate" && NAMES[5] == "reply_scope_requested" && NAMES[6] == "contact"
           && NAMES[7] == "auto_relinquish";
  }

  /** Terms may also lie flat beside the key and the name. */
  function FlatContent(scopeKey: Json, scopeName: string, terms: Terms): Json {
    JObj(PutAll(terms, |NAMES|)["scope_key" := scopeKey]["scope_name" := JStr(scopeName)])
  }

  /** A flat carrier reads as the terms that were laid out, too. */
  lemma FlatTermsSurvive(scopeKey: Json, scopeName: string, terms: Terms)
    ensures ParseTerms(FlatContent(scopeKey, scopeName, terms)) == Some(terms)
    ensures Bears(FlatContent(scopeKey, scopeName, terms), scopeKey, scopeName)
  {
    var src := FlatContent(scopeKey, scopeName, terms).fields;
    PutThenLook(terms, |NAMES|);
    forall i | 0 <= i < |NAMES|
      ensures NAMES[i] != "scope_key" && NAMES[i] != "scope_name"
    {
      assert |"scope_key"| == 9 && |"scope_name"| == 10 && "scope_name"[0] == 's';
      assert |NAMES[i]| != 9 && (|NAMES[i]| == 10 ==> NAMES[i][0] != 's');
    }
    assert NAMES[0] == "nvoy" && src["nvoy"] == JNum(terms.nvoy);
    FieldsReadBack(terms, src);
  }

  datatype GrantStatus = RevokedDetected | Relinquished | Expired | Active

  function TermsStatus(terms: Option<Terms>, now: int): GrantStatus {
    if terms.Some? && terms.value.expires_at.Some? && terms.value.expires_at.value <= now then Expired else Active
  }

  /** `grantStatus`: revocation outranks relinquishment, which outranks expiry. */
  function StatusOf(g: HeldGrant, now: int): GrantStatus {
    if g.revoked then RevokedDetected
    else if g.relinquished then GrantStatus.Relinquished
    else if g.grant.terms.Some? && g.grant.terms.value.expires_at.Some? then TermsStatus(g.grant.terms, now)
    else if g.expiration.Some? && g.expiration.value <= now then Expired
    else Active
  }

  /** A grant is active exactly when no record speaks against it and its deadline, if it has one, is ahead; a revocation
      outranks a relinquishment and that an expiry. */
  lemma StatusIs(g: HeldGrant, now: int)
    ensures StatusOf(g, now) == RevokedDetected <==> g.revoked
    ensures StatusOf(g, now) == GrantStatus.Relinquished <==> !g.revoked && g.relinquished
    ensures StatusOf(g, now) == Expired <==>
            !g.revoked && !g.relinquished && exists t: int :: Deadline(g) == Some(t) && t <= now
    ensures match Deadline(g)
            case Some(t) =>
              if g.grant.terms.Some? && g.grant.terms.value.expires_at.Some?
                  then g.grant.terms.value.expires_at == Some(t)
              else g.expiration == Some(t)
            case None =>
              g.expiration == None && (g.grant.terms.Some? ==> g.grant.terms.value.expires_at == None)
  {
  }

  /** `terms?.expires_at ?? expiration`. */
  function Deadline(g: HeldGrant): Option<int> {
    if g.grant.terms.Some? && g.grant.terms.value.expires_at.Some? then g.grant.terms.value.expires_at else g.expiration
  }
}
