/** MFA receipts: short-lived signed tokens mfa1.<payload>.<signature> that are issued without a database row,
    checked against the keyring and the caller's expectations, and consumed once by their id. */
module Receipts {
  import Base64Url
  import opened Text

  type bytes = seq<Base64Url.byte>

  const PREFIX := "mfa1."
  const MIN_TTL := 120
  const MAX_TTL := 300
  const MAX_LIFETIME := 300
  const IAT_SKEW := 60
  const ALLOWED_AMR: set<string> := {"pwd", "totp", "webauthn", "backup_code"}
  const REQUIRED_AMR: set<string> := {"totp", "webauthn"}

  datatype Option<T> = None | Some(value: T)

  datatype Result<T> = Ok(value: T) | Err(reason: Reason)

  datatype Reason =
    | InvalidIssueParams | TtlOutOfRange | AmrPolicyViolation
    | SigningKeyMissing | NoCurrentSigningKey
    | EmptyToken | MalformedToken | PayloadDecodeFailed | UnknownKid | NonAsciiSignature | SignatureMismatch
    | JtiInvalid | Revoked | ActionHashInvalid | IatInFuture | LifetimeTooLong | Expired
    | SubMismatch | PurposeMismatch | ActionHashMismatch | AgeExceeded | AlreadyConsumed

  datatype Json =
    | JNull
    | JBool(b: bool)
    | JInt(n: int)
    | JReal(x: real)
    | JString(s: string)
    | JArray(items: seq<Json>)
    | JObject(fields: map<string, Json>)

  /** payload.get(name) */
  function Field(j: Json, name: string): Json {
    if j.JObject? && name in j.fields then j.fields[name] else JNull
  }

  /** Python equality between a JSON value and an int: booleans and floats compare by number. */
  predicate EqualsInt(j: Json, n: int) {
    match j
    case JInt(m) => m == n
    case JBool(b) => (if b then 1 else 0) == n
    case JReal(x) => x == n as real
    case _ => false
  }

  /** HMAC-SHA256, JSON (with its UTF-8 step) and the lenient part of the base64 decoder are parameters. */
  datatype Crypto = Crypto(
    mac: (string, string) -> bytes,
    dumps: Json -> bytes,
    loads: bytes -> Option<Json>,
    lenient: string -> Base64Url.Option<bytes>)

  /** What is assumed of them: digests have 32 bytes, parsing undoes printing for the payload, nothing parses from no bytes. */
  ghost predicate Sound(c: Crypto, payload: Json) {
    && (forall key, message :: |c.mac(key, message)| == 32)
    && c.loads(c.dumps(payload)) == Some(payload)
    && c.loads([]) == None
  }

  // ---- keyring ----

  /** The environment, stripped: an empty key id means the default one. */
  datatype Settings = Settings(currentKey: string, keyId: string, previousKey: string)

  function CurrentKid(e: Settings): string {
    if e.keyId == "" then "current" else e.keyId
  }

  function Keyring(e: Settings): Result<map<string, string>> {
    if e.currentKey == "" then Err(SigningKeyMissing)
    else if e.previousKey == "" then Ok(map[CurrentKid(e) := e.currentKey])
    else Ok(map[CurrentKid(e) := e.currentKey]["previous" := e.previousKey])
  }

  /** The first key whose id is not "previous". */
  function SigningKey(e: Settings): (r: Result<(string, string)>)
    ensures r.Ok? ==> Keyring(e).Ok? && r.value.1 in Keyring(e).value && Keyring(e).value[r.value.1] == r.value.0 && r.value.1 != ""
  {
    if e.currentKey == "" then Err(SigningKeyMissing)
    else if CurrentKid(e) == "previous" then Err(NoCurrentSigningKey)
    else Ok((e.currentKey, CurrentKid(e)))
  }

  function Sign(c: Crypto, payload: string, key: string): string {
    Base64Url.Encode(c.mac(key, payload))
  }

  // ---- issuing ----

  predicate AmrAllowed(amr: seq<string>) {
    && amr != [] && (forall i :: 0 <= i < |amr| ==> amr[i] in ALLOWED_AMR)
    && exists i :: 0 <= i < |amr| && amr[i] in REQUIRED_AMR
  }

  function Strings(s: seq<string>): seq<Json> {
    seq(|s|, i requires 0 <= i < |s| => JString(s[i]))
  }

  function Payload(jti: string, principal: int, purpose: string, actionHash: string, amr: seq<string>, now: int, ttl: int,
      kid: string): Json {
    JObject(map["jti" := JString(jti), "sub" := JInt(principal), "purpose" := JString(purpose), "action_hash" := JString(actionHash),
                "amr" := JArray(Strings(amr)), "iat" := JInt(now), "exp" := JInt(now + ttl), "kid" := JString(kid)])
  }

  function Token(c: Crypto, payload: Json, key: string): string {
    var text := Base64Url.Encode(c.dumps(payload));
    PREFIX + text + "." + Sign(c, text, key)
  }

  function Issue(c: Crypto, e: Settings, principal: int, purpose: string, actionHash: string, amr: seq<string>, ttl: int,
                 jti: string, now: int): Result<string>
  {
    if principal == 0 || purpose == "" || actionHash == "" then Err(InvalidIssueParams)
    else if ttl < MIN_TTL || ttl > MAX_TTL then Err(TtlOutOfRange)
    else if !AmrAllowed(amr) then Err(AmrPolicyViolation)
    else
      match SigningKey(e)
      case Err(reason) => Err(reason)
      case Ok((key, kid)) => Ok(Token(c, Payload(jti, principal, purpose, actionHash, amr, now, ttl, kid), key))
  }

  // ---- checking ----

  /** re.match with "$": one trailing newline is accepted. */
  function Chomp(s: string): string {
    if s != "" && s[|s| - 1] == '\n' then s[..|s| - 1] else s
  }

  predicate IsUuid(s: string) {
    && |s| == 36 && s[8] == s[13] == s[18] == s[23] == '-'
    && forall i :: 0 <= i < 36 && i != 8 && i != 13 && i != 18 && i != 23 ==> IsHexDigit(s[i])
  }

  predicate JtiWellFormed(s: string) {
    IsHex(Chomp(s), 32) || IsUuid(Chomp(s))
  }

  predicate ActionHashWellFormed(s: string) {
    IsHex(Chomp(s), 64)
  }

  predicate IsAscii(s: string) {
    forall i :: 0 <= i < |s| ==> s[i] < 128 as char
  }

  /** The two segments after the prefix. */
  function Segments(token: string): Result<(string, string)> {
    if token == "" then Err(EmptyToken)
    else if !(PREFIX <= token) then Err(MalformedToken)
    else
      var parts := Split(token[|PREFIX|..], '.');
      if |parts| != 2 || parts[0] == "" || parts[1] == "" then Err(MalformedToken) else Ok((parts[0], parts[1]))
  }

  function Read(c: Crypto, text: string): Option<Json> {
    match Base64Url.Decode(text, c.lenient)
    case None => None
    case Some(b) => c.loads(b)
  }

  /** The payload, once its signature is that of its key. */
  function Authenticate(c: Crypto, e: Settings, token: string): Result<Json> {
    match Segments(token)
    case Err(reason) => Err(reason)
    case Ok((text, signature)) =>
      match Read(c, text)
      case None => Err(PayloadDecodeFailed)
      case Some(payload) =>
        var kid := Field(payload, "kid");
        if !kid.JString? || kid.s == "" then Err(UnknownKid)
        else
          match Keyring(e)
          case Err(reason) => Err(reason)
          case Ok(keys) =>
            if kid.s !in keys then Err(UnknownKid)
            else if !IsAscii(signature) then Err(NonAsciiSignature)
            else if Sign(c, text, keys[kid.s]) != signature then Err(SignatureMismatch)
            else Ok(payload)
  }

  datatype Expected = Expected(principal: int, purpose: string, actionHash: string)

  /** The field checks, in order, at time now. l1: the ids this process knows to be revoked. */
  function CheckFields(payload: Json, x: Expected, l1: set<string>, now: int): Option<Reason> {
    var jti, hash, exp, iat := Field(payload, "jti"), Field(payload, "action_hash"), Field(payload, "exp"), Field(payload, "iat");
    if !jti.JString? || !JtiWellFormed(jti.s) then Some(JtiInvalid)
    else if jti.s in l1 then Some(Revoked)
    else if !hash.JString? || !ActionHashWellFormed(hash.s) then Some(ActionHashInvalid)
    else if !iat.JInt? || iat.n < now - IAT_SKEW || iat.n > now + IAT_SKEW then Some(IatInFuture)
    else if !exp.JInt? || exp.n - iat.n > MAX_LIFETIME then Some(LifetimeTooLong)
    else if now >= exp.n then Some(Expired)
    else if !EqualsInt(Field(payload, "sub"), x.principal) then Some(SubMismatch)
    else if Field(payload, "purpose") != JString(x.purpose) then Some(PurposeMismatch)
    else if hash.s != x.actionHash then Some(ActionHashMismatch)
    else None
  }

  /** verify_mfa_receipt */
  function Verify(c: Crypto, e: Settings, token: string, x: Expected, l1: set<string>, now: int): (r: Result<Json>)
    ensures r.Ok? ==> Field(r.value, "jti").JString? && Field(r.value, "iat").JInt?
  {
    match Authenticate(c, e, token)
    case Err(reason) => Err(reason)
    case Ok(payload) =>
      match CheckFields(payload, x, l1, now)
      case Some(reason) => Err(reason)
      case None => Ok(payload)
  }

  /** verify_mfa_receipt_age: a receipt from the future is refused. */
  predicate AgeAllowed(iat: int, now: int, maxAge: int) {
    0 <= now - iat <= maxAge
  }

  // ---- the authoritative verifier ----

  /** The shared tables of revoked and consumed ids. */
  datatype Tables = Tables(revoked: set<string>, consumed: set<string>)

  /** The two readings of the clock, and whether the two store accesses work. */
  datatype Conditions = Conditions(checkedAt: int, agedAt: int, revocationsUp: bool, receiptsUp: bool)

  function Authoritative(c: Crypto, e: Settings, token: string, x: Expected, consume: bool, maxAge: int,
                         l1: set<string>, t: Tables, at: Conditions): Result<Json>
  {
    match Verify(c, e, token, x, l1, at.checkedAt)
    case Err(reason) => Err(reason)
    case Ok(payload) =>
      var jti := Field(payload, "jti").s;
      if !AgeAllowed(Field(payload, "iat").n, at.agedAt, maxAge) then Err(AgeExceeded)
      else if at.revocationsUp && jti in t.revoked then Err(Revoked)
      else if consume && (!at.receiptsUp || jti in t.consumed) then Err(AlreadyConsumed)
      else Ok(payload)
  }

  class Store {
    var tables: Tables

    constructor ()
      ensures tables == Tables({}, {})
    {
      tables := Tables({}, {});
    }

    /** INSERT OR IGNORE: true only for the first consumption; false when the store is down. */
    method ConsumeReceipt(jti: string, up: bool) returns (first: bool)
      modifies this
      ensures first <==> jti != "" && up && jti !in old(tables).consumed
      ensures tables == if jti != "" && up then old(tables).(consumed := old(tables).consumed + {jti}) else old(tables)
    {
      if jti == "" || !up {
        return false;
      }
      first := jti !in tables.consumed;
      tables := tables.(consumed := tables.consumed + {jti});
    }
  }

  /** One process: its cache of revoked ids over the shared store. */
  class Verifier {
    const store: Store
    var revocations: set<string>

    constructor (store: Store)
      ensures this.store == store && revocations == {}
    {
      this.store, revocations := store, {};
    }

    /** Revokes for this process at once, and for the others when the store is up. */
    method Revoke(jti: string, up: bool) returns (ok: bool)
      modifies this, store
      ensures ok <==> jti != ""
      ensures revocations == if ok then old(revocations) + {jti} else old(revocations)
      ensures store.tables == if ok && up then old(store.tables).(revoked := old(store.tables).revoked + {jti}) else old(store.tables)
    {
      if jti == "" {
        return false;
      }
      revocations := revocations + {jti};
      if up {
        store.tables := store.tables.(revoked := store.tables.revoked + {jti});
      }
      return true;
    }

    /** A store that is down counts as not revoked; a hit is cached. */
    method IsRevoked(jti: string, up: bool) returns (revoked: bool)
      modifies this
      ensures revoked <==> jti != "" && (jti in old(revocations) || (up && jti in store.tables.revoked))
      ensures revocations == if revoked then old(revocations) + {jti} else old(revocations)
    {
      if jti == "" {
        return false;
      }
      if jti in revocations {
        assert revocations == revocations + {jti};
        return true;
      }
      if up && jti in store.tables.revoked {
        revocations := revocations + {jti};
        return true;
      }
      return false;
    }

    /** Signature and fields, age, the shared revocations, then one-time consumption. */
    method VerifyAuthoritative(c: Crypto, e: Settings, token: string, x: Expected, consume: bool, maxAge: int, at: Conditions)
      returns (r: Result<Json>)
      modifies this, store
      ensures r == Authoritative(c, e, token, x, consume, maxAge, old(revocations), old(store.tables), at)
      ensures r.Ok? && consume ==> store.tables == old(store.tables).(consumed := old(store.tables).consumed + {Field(r.value, "jti").s})
      ensures !(r.Ok? && consume) ==> store.tables == old(store.tables)
      ensures old(revocations) <= revocations <= old(revocations) + store.tables.revoked
    {
      r := Verify(c, e, token, x, revocations, at.checkedAt);
      if r.Err? {
        return;
      }
      var jti := Field(r.value, "jti").s;
      NotEmpty(c, e, token, x, revocations, at.checkedAt);
      if !AgeAllowed(Field(r.value, "iat").n, at.agedAt, maxAge) {
        return Err(AgeExceeded);
      }
      var revoked := IsRevoked(jti, at.revocationsUp);
      if revoked {
        return Err(Revoked);
      }
      if consume {
        var before := store.tables;
        var first := store.ConsumeReceipt(jti, at.receiptsUp);
        if !first {
          assert at.receiptsUp ==> store.tables.consumed == before.consumed;
          return Err(AlreadyConsumed);
        }
      }
    }
  }

  /** A verified receipt has a non-empty id, unknown to this process as revoked. */
  lemma NotEmpty(c: Crypto, e: Settings, token: string, x: Expected, l1: set<string>, now: int)
    requires Verify(c, e, token, x, l1, now).Ok?
    ensures var payload := Verify(c, e, token, x, l1, now).value; Field(payload, "jti").s != "" && Field(payload, "jti").s !in l1
  {
    var payload := Verify(c, e, token, x, l1, now).value;
    assert CheckFields(payload, x, l1, now).None?;
    assert Chomp("") == "";
  }

  // ---- issue, then verify ----

  lemma TextSegments(text: string, signature: string)
    requires text != "" && signature != "" && '.' !in text && '.' !in signature
    ensures Segments(PREFIX + text + "." + signature) == Ok((text, signature))
  {
    SplitField(text, '.', signature);
    SplitWithout(signature, '.');
    var token := PREFIX + text + "." + signature;
    assert token == PREFIX + (text + ['.'] + signature);
    assert token[|PREFIX|..] == text + ['.'] + signature;
  }

  lemma SignatureText(c: Crypto, text: string, key: string)
    requires |c.mac(key, text)| == 32
    ensures Sign(c, text, key) != "" && '.' !in Sign(c, text, key) && IsAscii(Sign(c, text, key))
  {
    Base64Url.DecodeEncode(c.mac(key, text), c.lenient);
  }

  lemma PayloadText(c: Crypto, payload: Json)
    requires c.loads(c.dumps(payload)) == Some(payload) && c.loads([]) == None
    ensures var text := Base64Url.Encode(c.dumps(payload)); text != "" && '.' !in text && Read(c, text) == Some(payload)
  {
    Base64Url.DecodeEncode(c.dumps(payload), c.lenient);
  }

  lemma TokenSegments(c: Crypto, payload: Json, key: string)
    requires Sound(c, payload)
    ensures var text := Base64Url.Encode(c.dumps(payload));
      && Segments(Token(c, payload, key)) == Ok((text, Sign(c, text, key)))
      && Read(c, text) == Some(payload) && IsAscii(Sign(c, text, key))
  {
    PayloadText(c, payload);
    var text := Base64Url.Encode(c.dumps(payload));
    SignatureText(c, text, key);
    TextSegments(text, Sign(c, text, key));
  }

  /** An issued token parses back to its payload and its signature is accepted under the same keyring. */
  lemma IssuedAuthenticates(c: Crypto, e: Settings, principal: int, purpose: string, actionHash: string, amr: seq<string>, ttl: int,
                            jti: string, now: int)
    requires Issue(c, e, principal, purpose, actionHash, amr, ttl, jti, now).Ok?
    requires Sound(c, Payload(jti, principal, purpose, actionHash, amr, now, ttl, CurrentKid(e)))
    ensures Authenticate(c, e, Issue(c, e, principal, purpose, actionHash, amr, ttl, jti, now).value)
      == Ok(Payload(jti, principal, purpose, actionHash, amr, now, ttl, CurrentKid(e)))
  {
    var payload := Payload(jti, principal, purpose, actionHash, amr, now, ttl, CurrentKid(e));
    TokenSegments(c, payload, e.currentKey);
    assert Field(payload, "kid") == JString(CurrentKid(e));
  }

  /** When exactly the field checks pass for an issued payload. */
  lemma IssuedFieldsPassIff(principal: int, purpose: string, actionHash: string, amr: seq<string>, ttl: int, jti: string,
      iat: int, kid: string,
                            x: Expected, l1: set<string>, now: int)
    requires MIN_TTL <= ttl <= MAX_TTL && JtiWellFormed(jti)
    ensures CheckFields(Payload(jti, principal, purpose, actionHash, amr, iat, ttl, kid), x, l1, now).None? <==>
      x == Expected(principal, purpose, actionHash) && ActionHashWellFormed(actionHash) && jti !in l1 && -IAT_SKEW <= now - iat <= IAT_SKEW
  {
    var payload := Payload(jti, principal, purpose, actionHash, amr, iat, ttl, kid);
    assert Field(payload, "jti") == JString(jti) && Field(payload, "action_hash") == JString(actionHash);
    assert Field(payload, "iat") == JInt(iat) && Field(payload, "exp") == JInt(iat + ttl);
    assert Field(payload, "sub") == JInt(principal) && Field(payload, "purpose") == JString(purpose);
  }

  /** For everything that can be issued, and every caller, store state and clock: the authoritative verifier accepts exactly when
      the caller expects the same principal, purpose and hash, the hash has the required form, the receipt is at most
      IAT_SKEW (and maxAge) seconds old, and it is neither revoked nor, when consuming, consumed. */
  lemma IssuedAcceptedIff(c: Crypto, e: Settings, principal: int, purpose: string, actionHash: string, amr: seq<string>, ttl: int,
                          jti: string, iat: int, x: Expected, consume: bool, maxAge: int, l1: set<string>, t: Tables, at: Conditions)
    requires Issue(c, e, principal, purpose, actionHash, amr, ttl, jti, iat).Ok? && JtiWellFormed(jti)
    requires Sound(c, Payload(jti, principal, purpose, actionHash, amr, iat, ttl, CurrentKid(e)))
    ensures var token := Issue(c, e, principal, purpose, actionHash, amr, ttl, jti, iat).value;
      Authoritative(c, e, token, x, consume, maxAge, l1, t, at).Ok? <==>
        && x == Expected(principal, purpose, actionHash) && ActionHashWellFormed(actionHash)
        && -IAT_SKEW <= at.checkedAt - iat <= IAT_SKEW && 0 <= at.agedAt - iat <= maxAge
        && jti !in l1 && (at.revocationsUp ==> jti !in t.revoked)
        && (consume ==> at.receiptsUp && jti !in t.consumed)
  {
    var payload := Payload(jti, principal, purpose, actionHash, amr, iat, ttl, CurrentKid(e));
    IssuedAuthenticates(c, e, principal, purpose, actionHash, amr, ttl, jti, iat);
    IssuedFieldsPassIff(principal, purpose, actionHash, amr, ttl, jti, iat, CurrentKid(e), x, l1, at.checkedAt);
    assert Field(payload, "jti") == JString(jti) && Field(payload, "iat") == JInt(iat);
  }

  /** The round trip: a receipt issued for a 64-hex hash is accepted, with its own payload, at every time up to 60 seconds later. */
  lemma IssueThenVerify(c: Crypto, e: Settings, principal: int, purpose: string, actionHash: string, amr: seq<string>, ttl: int,
                        jti: string, iat: int, now: int, consume: bool, l1: set<string>, t: Tables)
    requires principal != 0 && purpose != "" && IsHex(actionHash, 64) && AmrAllowed(amr) && MIN_TTL <= ttl <= MAX_TTL
    requires SigningKey(e).Ok? && IsHex(jti, 32)
    requires Sound(c, Payload(jti, principal, purpose, actionHash, amr, iat, ttl, CurrentKid(e)))
    requires 0 <= now - iat <= 60 && jti !in l1 && jti !in t.revoked && (consume ==> jti !in t.consumed)
    ensures var issued := Issue(c, e, principal, purpose, actionHash, amr, ttl, jti, iat);
      && issued.Ok?
      && Authoritative(c, e, issued.value, Expected(principal, purpose, actionHash), consume, MAX_LIFETIME, l1, t,
          Conditions(now, now, true, true))
        == Ok(Payload(jti, principal, purpose, actionHash, amr, iat, ttl, CurrentKid(e)))
  {
    assert Chomp(jti) == jti && Chomp(actionHash) == actionHash;
    IssuedAcceptedIff(c, e, principal, purpose, actionHash, amr, ttl, jti, iat, Expected(principal, purpose, actionHash), consume,
                      MAX_LIFETIME, l1, t, Conditions(now, now, true, true));
    IssuedAuthenticates(c, e, principal, purpose, actionHash, amr, ttl, jti, iat);
  }

  /** The lifetime asked for is never used up: after 60 seconds the receipt is refused, although its ttl is at least 120. */
  lemma RefusedAfterSkew(c: Crypto, e: Settings, principal: int, purpose: string, actionHash: string, amr: seq<string>, ttl: int,
                         jti: string, iat: int, now: int, x: Expected, consume: bool, l1: set<string>, t: Tables)
    requires Issue(c, e, principal, purpose, actionHash, amr, ttl, jti, iat).Ok? && JtiWellFormed(jti)
    requires Sound(c, Payload(jti, principal, purpose, actionHash, amr, iat, ttl, CurrentKid(e)))
    requires iat + 60 < now < iat + ttl
    ensures var token := Issue(c, e, principal, purpose, actionHash, amr, ttl, jti, iat).value;
      Authoritative(c, e, token, x, consume, MAX_LIFETIME, l1, t, Conditions(now, now, true, true)).Err?
  {
    IssuedAcceptedIff(c, e, principal, purpose, actionHash, amr, ttl, jti, iat, x, consume, MAX_LIFETIME, l1, t,
        Conditions(now, now, true, true));
  }

  /** A payload text has one acceptable signature: two authenticated tokens with the same payload text are the same token. */
  lemma OneTokenPerPayloadText(c: Crypto, e: Settings, a: string, b: string)
    requires Authenticate(c, e, a).Ok? && Authenticate(c, e, b).Ok? && Segments(a).value.0 == Segments(b).value.0
    ensures a == b
  {
    SegmentsRebuild(a);
    SegmentsRebuild(b);
  }

  lemma SegmentsRebuild(token: string)
    requires Segments(token).Ok?
    ensures token == PREFIX + Segments(token).value.0 + "." + Segments(token).value.1
  {
    var rest := token[|PREFIX|..];
    SplitJoins(rest, '.');
    assert token == PREFIX + rest;
    var parts := Split(rest, '.');
    assert Join(parts, '.') == parts[0] + ['.'] + Join(parts[1..], '.');
  }

  // ---- exactly what is issued, and exactly what is accepted ----

  /** The keys a token may name: the current key under its id, "current" when none is set, and the previous key under "previous",
      which a current key of that id gives way to. There is none without a current key. */
  lemma KeyringInFields(e: Settings, kid: string)
    ensures Keyring(e).Ok? <==> e.currentKey != ""
    ensures Keyring(e).Err? ==> Keyring(e).reason == SigningKeyMissing
    ensures var current := if e.keyId == "" then "current" else e.keyId;
      Keyring(e).Ok? ==> (
        && (kid in Keyring(e).value <==> kid == current || (e.previousKey != "" && kid == "previous"))
        && (kid in Keyring(e).value ==>
            Keyring(e).value[kid] == if e.previousKey != "" && kid == "previous" then e.previousKey else e.currentKey))
  {
  }

  /** A receipt is issued exactly for a principal, a purpose and a hash, a lifetime of 120 to 300 seconds, and known ways of
      authentication with one-time code or security key among them, while the signing key is not the previous one. */
  lemma IssuedIff(c: Crypto, e: Settings, principal: int, purpose: string, actionHash: string, amr: seq<string>, ttl: int,
                  jti: string, now: int)
    ensures Issue(c, e, principal, purpose, actionHash, amr, ttl, jti, now).Ok? <==>
      && principal != 0 && purpose != "" && actionHash != "" && 120 <= ttl <= 300
      && (forall i :: 0 <= i < |amr| ==> amr[i] in ["pwd", "totp", "webauthn", "backup_code"])
      && (exists i :: 0 <= i < |amr| && amr[i] in ["totp", "webauthn"])
      && e.currentKey != "" && e.keyId != "previous"
  {
  }

  /** The forms of an id and of a hash, with one line feed allowed at the end. */
  lemma FormsInFields(s: string)
    ensures var body := if s != "" && s[|s| - 1] == 10 as char then s[..|s| - 1] else s;
      var hex := "0123456789abcdef";
      && (ActionHashWellFormed(s) <==> |body| == 64 && forall i :: 0 <= i < 64 ==> body[i] in hex)
      && (JtiWellFormed(s) <==>
          || (|body| == 32 && forall i :: 0 <= i < 32 ==> body[i] in hex)
          || (|body| == 36 && forall i :: 0 <= i < 36 ==> if i in [8, 13, 18, 23] then body[i] == '-' else body[i] in hex))
  {
    var body := if s != "" && s[|s| - 1] == 10 as char then s[..|s| - 1] else s;
    assert 10 as char == '\n' && Chomp(s) == body;
    HexDigits(body, 64);
    HexDigits(body, 32);
    UuidInFields(body);
  }

  lemma UuidInFields(s: string)
    ensures IsUuid(s) <==>
      |s| == 36 && forall i :: 0 <= i < 36 ==> if i in [8, 13, 18, 23] then s[i] == '-' else s[i] in "0123456789abcdef"
  {
    assert forall c: char :: IsHexDigit(c) <==> c in "0123456789abcdef";
    if |s| == 36 && forall i :: 0 <= i < 36 ==> if i in [8, 13, 18, 23] then s[i] == '-' else s[i] in "0123456789abcdef" {
      assert 8 in [8, 13, 18, 23] && 13 in [8, 13, 18, 23] && 18 in [8, 13, 18, 23] && 23 in [8, 13, 18, 23];
    }
  }

  lemma SegmentsIff(token: string, text: string, signature: string)
    ensures Segments(token) == Ok((text, signature)) <==>
      token == "mfa1." + text + "." + signature && text != "" && signature != "" && '.' !in text && '.' !in signature
  {
    if Segments(token) == Ok((text, signature)) {
      SegmentsRebuild(token);
      FieldsHoldNone(token[|PREFIX|..], '.');
    }
    if token == "mfa1." + text + "." + signature && text != "" && signature != "" && '.' !in text && '.' !in signature {
      TextSegments(text, signature);
    }
  }

  /** A payload that names a key of the ring and the signature of its text under that key. */
  ghost predicate Genuine(c: Crypto, e: Settings, text: string, signature: string, payload: Json) {
    var kid := Field(payload, "kid");
    && kid.JString? && kid.s != "" && Keyring(e).Ok? && kid.s in Keyring(e).value
    && signature == Sign(c, text, Keyring(e).value[kid.s]) && forall i :: 0 <= i < |signature| ==> signature[i] as int < 128
  }

  lemma AuthenticIff(c: Crypto, e: Settings, token: string, payload: Json)
    ensures Authenticate(c, e, token) == Ok(payload) <==>
      exists text, signature ::
        && token == "mfa1." + text + "." + signature && text != "" && signature != "" && '.' !in text && '.' !in signature
        && Read(c, text) == Some(payload) && Genuine(c, e, text, signature, payload)
  {
    if Segments(token).Ok? {
      var (text, signature) := Segments(token).value;
      SegmentsIff(token, text, signature);
      assert Read(c, text) == Some(payload) && Genuine(c, e, text, signature, payload) <==> Authenticate(c, e, token) == Ok(payload);
    }
    forall text, signature
      | token == "mfa1." + text + "." + signature && text != "" && signature != "" && '.' !in text && '.' !in signature
      ensures Segments(token) == Ok((text, signature))
    {
      SegmentsIff(token, text, signature);
    }
  }

  /** Exactly when the fields of an authentic payload pass: a well-formed id not known as revoked, a well-formed hash, an issue time
      within 60 seconds, at most 300 seconds of life and some left, and the principal, the purpose and the hash expected. A
      principal written as a boolean or a fraction compares by number. */
  lemma FieldsPassIff(payload: Json, x: Expected, l1: set<string>, now: int)
    ensures var jti, hash, iat, exp, sub := Field(payload, "jti"), Field(payload, "action_hash"), Field(payload, "iat"),
                                            Field(payload, "exp"), Field(payload, "sub");
      CheckFields(payload, x, l1, now) == None <==>
        && jti.JString? && JtiWellFormed(jti.s) && jti.s !in l1
        && hash == JString(x.actionHash) && ActionHashWellFormed(x.actionHash)
        && iat.JInt? && now - 60 <= iat.n <= now + 60
        && exp.JInt? && now < exp.n <= iat.n + 300
        && (sub == JInt(x.principal) || sub == JReal(x.principal as real)
            || (sub == JBool(true) && x.principal == 1) || (sub == JBool(false) && x.principal == 0))
        && Field(payload, "purpose") == JString(x.purpose)
  {
  }

  /** Exactly when any token at all is accepted, with which payload. */
  lemma AcceptedIff(c: Crypto, e: Settings, token: string, x: Expected, consume: bool, maxAge: int, l1: set<string>, t: Tables,
                    at: Conditions, payload: Json)
    ensures Authoritative(c, e, token, x, consume, maxAge, l1, t, at) == Ok(payload) <==>
      && Authenticate(c, e, token) == Ok(payload) && CheckFields(payload, x, l1, at.checkedAt) == None
      && 0 <= at.agedAt - Field(payload, "iat").n <= maxAge
      && (at.revocationsUp ==> Field(payload, "jti").s !in t.revoked)
      && (consume ==> at.receiptsUp && Field(payload, "jti").s !in t.consumed)
  {
  }

  // ---- rotating the key ----

  /** An issued token names the id of the current key, and that is never "previous". */
  lemma IssuedKid(c: Crypto, e: Settings, principal: int, purpose: string, actionHash: string, amr: seq<string>, ttl: int,
                  jti: string, now: int)
    requires Issue(c, e, principal, purpose, actionHash, amr, ttl, jti, now).Ok?
    requires Sound(c, Payload(jti, principal, purpose, actionHash, amr, now, ttl, CurrentKid(e)))
    ensures var token := Issue(c, e, principal, purpose, actionHash, amr, ttl, jti, now).value;
      && Segments(token).Ok? && Read(c, Segments(token).value.0).Some?
      && Field(Read(c, Segments(token).value.0).value, "kid") == JString(CurrentKid(e)) && CurrentKid(e) != "previous"
  {
    TokenSegments(c, Payload(jti, principal, purpose, actionHash, amr, now, ttl, CurrentKid(e)), e.currentKey);
  }

  /** After a rotation, whatever the previous key is set to: a token issued before it is refused for its key id when the id of the key
      changed, and otherwise passes exactly when the new key happens to give the same signature. The previous key is never used
      for a token this program issued. */
  lemma RotationRefuses(c: Crypto, before: Settings, e: Settings, principal: int, purpose: string, actionHash: string, amr: seq<string>,
                        ttl: int, jti: string, now: int)
    requires Issue(c, before, principal, purpose, actionHash, amr, ttl, jti, now).Ok? && e.currentKey != ""
    requires Sound(c, Payload(jti, principal, purpose, actionHash, amr, now, ttl, CurrentKid(before)))
    ensures Segments(Issue(c, before, principal, purpose, actionHash, amr, ttl, jti, now).value).Ok?
    ensures var token := Issue(c, before, principal, purpose, actionHash, amr, ttl, jti, now).value;
      var text := Segments(token).value.0;
      && (CurrentKid(e) != CurrentKid(before) ==> Authenticate(c, e, token) == Err(UnknownKid))
      && (CurrentKid(e) == CurrentKid(before) ==>
          (Authenticate(c, e, token).Ok? <==> Sign(c, text, e.currentKey) == Sign(c, text, before.currentKey)))
  {
    var payload := Payload(jti, principal, purpose, actionHash, amr, now, ttl, CurrentKid(before));
    TokenSegments(c, payload, before.currentKey);
    IssuedKid(c, before, principal, purpose, actionHash, amr, ttl, jti, now);
    KeyringInFields(e, CurrentKid(before));
  }

  // ---- consumed once ----

  /** A consuming verification by some process. Its cache of revoked ids and its view of the revocation table are arbitrary. */
  datatype Use = Use(token: string, expected: Expected, maxAge: int, cache: set<string>, revoked: set<string>, at: Conditions)

  function Outcome(c: Crypto, e: Settings, u: Use, consumed: set<string>): Result<Json> {
    Authoritative(c, e, u.token, u.expected, true, u.maxAge, u.cache, Tables(u.revoked, consumed), u.at)
  }

  /** The ids accepted by a run of consuming verifications in any processes, in order. */
  function AcceptedIds(c: Crypto, e: Settings, uses: seq<Use>): seq<string> {
    if uses == [] then []
    else
      var before := AcceptedIds(c, e, uses[..|uses| - 1]);
      var outcome := Outcome(c, e, uses[|uses| - 1], Consumed(c, e, uses[..|uses| - 1]));
      before + if outcome.Ok? then [Field(outcome.value, "jti").s] else []
  }

  function Consumed(c: Crypto, e: Settings, uses: seq<Use>): set<string> {
    if uses == [] then {}
    else
      var before := Consumed(c, e, uses[..|uses| - 1]);
      var outcome := Outcome(c, e, uses[|uses| - 1], before);
      before + if outcome.Ok? then {Field(outcome.value, "jti").s} else {}
  }

  lemma AcceptedIsFresh(c: Crypto, e: Settings, u: Use, consumed: set<string>)
    ensures Outcome(c, e, u, consumed).Ok? ==> Field(Outcome(c, e, u, consumed).value, "jti").s !in consumed
  {
  }

  ghost predicate EachOnce(ids: seq<string>, consumed: set<string>) {
    && (forall i :: 0 <= i < |ids| ==> ids[i] in consumed)
    && (forall i, j :: 0 <= i < j < |ids| ==> ids[i] != ids[j])
  }

  lemma OneMore(ids: seq<string>, consumed: set<string>, id: string)
    requires EachOnce(ids, consumed) && id !in consumed
    ensures EachOnce(ids + [id], consumed + {id})
  {
  }

  /** Over every run, no receipt id is accepted twice by consuming verifications. */
  lemma {:induction false} ConsumedAtMostOnce(c: Crypto, e: Settings, uses: seq<Use>)
    ensures EachOnce(AcceptedIds(c, e, uses), Consumed(c, e, uses))
  {
    if uses != [] {
      var before := uses[..|uses| - 1];
      ConsumedAtMostOnce(c, e, before);
      var outcome := Outcome(c, e, uses[|uses| - 1], Consumed(c, e, before));
      AcceptedIsFresh(c, e, uses[|uses| - 1], Consumed(c, e, before));
      if outcome.Ok? {
        OneMore(AcceptedIds(c, e, before), Consumed(c, e, before), Field(outcome.value, "jti").s);
      }
    }
  }
}
