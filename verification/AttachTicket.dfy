/**
  Attach tickets (vgi/attach_ticket.go): sealing the attach request of a user,
  and redeeming it later for the same principal.  The cipher is a pair of
  functions with stated laws; the clock, the ticket id and the nonce are
  parameters.
 */
module AttachTicket {
  import opened Wrappers
  import opened ByteStrings
  import opened Base64Url
  import opened TicketPayload

  const PREFIX := "vgia1."
  const MAX_CHARS := 32 * 1024
  const SKEW := 60
  const ENVELOPE_VERSION := 1

  /** The bytes of "vgi.attach_ticket.v1" and a NUL. */
  const AAD_PREFIX: Bytes := [118, 103, 105, 46, 97, 116, 116, 97, 99, 104, 95, 116, 105, 99, 107, 101, 116, 46,
    118, 49, 0]

  function Aad(principal: Bytes): Bytes {
    AAD_PREFIX + principal
  }

  const KEY_SIZE := 32

  /** The hash for signing keys and the cipher, which takes keys of `KEY_SIZE` bytes. */
  datatype Crypto = Crypto(
    hash: Bytes -> Bytes,
    seal: (Bytes, Bytes, Bytes, int, Bytes) -> Bytes, // payload, key, aad, version, nonce
    open: (Bytes, Bytes, Bytes, int) -> Option<Bytes>) // envelope, key, aad, version

  /** `normalizeCryptoKey`: a key of another length is replaced by its hash. */
  function NormalizeKey(x: Crypto, key: Bytes): Bytes {
    if |key| == KEY_SIZE then key else x.hash(key)
  }

  ghost predicate HashesFit(x: Crypto) {
    forall key :: |x.hash(key)| == KEY_SIZE
  }

  /** Opening undoes sealing for the same cipher key, associated data and version. */
  ghost predicate OpensWhatItSealed(x: Crypto) {
    forall payload, key, aad, version, nonce :: |key| == KEY_SIZE ==>
      && x.seal(payload, key, aad, version, nonce) != []
      && x.open(x.seal(payload, key, aad, version, nonce), key, aad, version) == Some(payload)
  }

  /** Nothing sealed opens under another cipher key or other associated data. */
  ghost predicate Authentic(x: Crypto) {
    forall payload, key, aad, version, nonce, otherKey, otherAad ::
      |key| == |otherKey| == KEY_SIZE && (key != otherKey || aad != otherAad) ==>
        x.open(x.seal(payload, key, aad, version, nonce), otherKey, otherAad, version) == None
  }

  /** One column of an options record, with its value when that is a string. */
  datatype Column = Column(name: Bytes, text: Option<string>)

  /** What reading an options record finds. */
  datatype Row = Unreadable | NoRow | Columns(columns: seq<Column>)

  /** Everything outside the ticket code: integer codecs, UTF-8, the cipher, the
      options reader, whether bytes are an Arrow record, and the
      case-insensitive comparison with the reserved option name. */
  datatype Env = Env(words: Words, utf8: Bytes -> bool, crypto: Crypto, row: Bytes -> Row, isRecord: Bytes -> bool,
    isTicketOption: Bytes -> bool)

  ghost predicate EnvOk(env: Env) {
    WordsOk(env.words) && HashesFit(env.crypto) && OpensWhatItSealed(env.crypto)
  }

  /** int64 arithmetic. */
  function Int64(value: int): int {
    Signed(value % TWO_64)
  }

  predicate InInt64(value: int) {
    -TWO_63 <= value < TWO_63
  }

  // ---- Mint and open -------------------------------------------------------------

  /** `mintAttachTicket` with its ticket id and nonce drawn. */
  function Mint(env: Env, key: Bytes, principal: Bytes, c: Claims, nonce: Bytes): Option<string> {
    if principal == [] || !FieldRules(c) || !Encodable(c) then None
    else
      var cipherKey := NormalizeKey(env.crypto, key);
      var envelope := env.crypto.seal(Layout(env.words, c), cipherKey, Aad(principal), ENVELOPE_VERSION, nonce);
      var token := PREFIX + EncodeToString(envelope);
      if |token| > MAX_CHARS then None else Some(token)
  }

  datatype Opened = Opened(claims: Claims) | Invalid | Expired

  /** The lifetime check, trusted only after the payload was authenticated. */
  function CheckLifetime(c: Claims, now: int): Opened {
    if c.issuedAt > Int64(now + SKEW) then Expired
    else if c.expiresAt != 0 && now >= Int64(c.expiresAt + SKEW) then Expired
    else Opened(c)
  }

  /** `OpenAttachTicket`, check by check. */
  function Open(env: Env, key: Bytes, token: string, principal: Bytes, now: int): Opened
  {
    if !(PREFIX <= token) || |token| > MAX_CHARS then Invalid
    else match DecodeTicketBase64Url(token[|PREFIX|..])
      case None => Invalid
      case Some(envelope) =>
        if principal == [] then Invalid
        else match env.crypto.open(envelope, NormalizeKey(env.crypto, key), Aad(principal), ENVELOPE_VERSION)
          case None => Invalid
          case Some(payload) =>
            match Decode(env.words, env.utf8, payload)
            case None => Invalid
            case Some(c) => CheckLifetime(c, now)
  }

  /** A minted ticket carries its claims back to the same principal and key. */
  lemma OpenUndoesMint(env: Env, key: Bytes, principal: Bytes, c: Claims, nonce: Bytes, now: int)
    requires EnvOk(env) && ValidClaims(env.utf8, c)
    requires Mint(env, key, principal, c, nonce).Some?
    ensures Open(env, key, Mint(env, key, principal, c, nonce).value, principal, now) == CheckLifetime(c, now)
  {
    var payload, cipherKey := Layout(env.words, c), NormalizeKey(env.crypto, key);
    var envelope := env.crypto.seal(payload, cipherKey, Aad(principal), ENVELOPE_VERSION, nonce);
    var token := PREFIX + EncodeToString(envelope);
    assert token[|PREFIX|..] == EncodeToString(envelope);
    CanonicalExactly(EncodeToString(envelope), envelope);
    PayloadExactly(env.words, env.utf8, payload, c);
  }

  /** Another principal, or a key that is another one after normalization, gets
      one and the same refusal, whatever the claims and the clock; otherwise the
      ticket opens as it does for the key it was minted under. */
  lemma OthersAreRefused(env: Env, key: Bytes, principal: Bytes, c: Claims, nonce: Bytes, otherKey: Bytes,
                         other: Bytes, now: int)
    requires EnvOk(env) && Authentic(env.crypto)
    requires Mint(env, key, principal, c, nonce).Some?
    ensures var token := Mint(env, key, principal, c, nonce).value;
            Open(env, otherKey, token, other, now) ==
            if NormalizeKey(env.crypto, otherKey) == NormalizeKey(env.crypto, key) && other == principal
            then Open(env, key, token, principal, now) else Invalid
  {
    var payload, cipherKey := Layout(env.words, c), NormalizeKey(env.crypto, key);
    var envelope := env.crypto.seal(payload, cipherKey, Aad(principal), ENVELOPE_VERSION, nonce);
    var token := PREFIX + EncodeToString(envelope);
    assert token[|PREFIX|..] == EncodeToString(envelope);
    CanonicalExactly(EncodeToString(envelope), envelope);
    assert principal == Aad(principal)[|AAD_PREFIX|..] && other == Aad(other)[|AAD_PREFIX|..];
    var otherCipherKey := NormalizeKey(env.crypto, otherKey);
    if otherCipherKey != cipherKey || other != principal {
      assert env.crypto.open(envelope, otherCipherKey, Aad(other), ENVELOPE_VERSION) == None;
    }
  }

  /** A key that is not of the cipher's size and its hash are different keys that
      open the same tickets. */
  lemma HashedKeyOpens(env: Env, key: Bytes, principal: Bytes, c: Claims, nonce: Bytes, now: int)
    requires EnvOk(env) && ValidClaims(env.utf8, c) && |key| != KEY_SIZE
    requires Mint(env, key, principal, c, nonce).Some?
    ensures env.crypto.hash(key) != key
    ensures Open(env, env.crypto.hash(key), Mint(env, key, principal, c, nonce).value, principal, now) ==
            CheckLifetime(c, now)
  {
    assert |env.crypto.hash(key)| == KEY_SIZE;
    OpenUndoesMint(env, key, principal, c, nonce, now);
  }

  // ---- Redemption ------------------------------------------------------------------

  /** `CatalogAttachRequestWire`. */
  datatype Request = Request(
    name: Bytes, options: Option<Bytes>, dataVersionSpec: Option<Bytes>, implementationVersion: Option<Bytes>,
    capabilities: Bytes)

  datatype Outcome = Untouched | Restored(request: Request) | ReadError | NotAlone | InvalidTicket | ExpiredTicket

  function NonEmpty(b: Bytes): Option<Bytes> {
    if b == [] then None else Some(b)
  }

  function Restore(env: Env, c: Claims, capabilities: Bytes): Outcome {
    if c.options != [] && !env.isRecord(c.options) then InvalidTicket
    else Restored(Request(c.catalogName, NonEmpty(c.options), NonEmpty(c.dataVersionSpec),
      NonEmpty(c.implementationVersion), capabilities))
  }

  function RedeemToken(env: Env, token: string, key: Bytes, principal: Bytes, now: int, capabilities: Bytes): Outcome
  {
    if key == [] then InvalidTicket
    else match Open(env, key, token, principal, now)
      case Invalid => InvalidTicket
      case Expired => ExpiredTicket
      case Opened(c) => Restore(env, c, capabilities)
  }

  predicate HasTicket(env: Env, columns: seq<Column>) {
    exists i :: 0 <= i < |columns| && env.isTicketOption(columns[i].name)
  }

  /** `redeemAttachTicket`: a ticket must be the only option, and then stands for
      the whole request. */
  function Redeem(env: Env, req: Request, key: Bytes, principal: Bytes, now: int): Outcome
  {
    if req.options.None? then Untouched
    else match env.row(req.options.value)
      case Unreadable => ReadError
      case NoRow => Untouched
      case Columns(columns) =>
        if !HasTicket(env, columns) then Untouched
        else if |columns| > 1 then NotAlone
        else if columns[0].text.None? then InvalidTicket
        else RedeemToken(env, columns[0].text.value, key, principal, now, req.capabilities)
  }

  /** vgi/attach_ticket.go, `redeemAttachTicket`. */
  method RedeemAttachTicket(env: Env, req: Request, key: Bytes, principal: Bytes, now: int) returns (r: Outcome)
    ensures r == Redeem(env, req, key, principal, now)
  {
    if req.options.None? {
      return Untouched;
    }
    match env.row(req.options.value) {
      case Unreadable => return ReadError;
      case NoRow => return Untouched;
      case Columns(columns) =>
        var ticketCol := -1;
        for i := 0 to |columns|
          invariant ticketCol == -1
          invariant forall j :: 0 <= j < i ==> !env.isTicketOption(columns[j].name)
        {
          if env.isTicketOption(columns[i].name) {
            ticketCol := i;
            break;
          }
        }
        if ticketCol < 0 {
          return Untouched;
        }
        var violations := 0;
        for i := 0 to |columns|
          invariant violations == i - if i > ticketCol then 1 else 0
        {
          if i != ticketCol {
            violations := violations + 1;
          }
        }
        if violations > 0 {
          return NotAlone;
        }
        if columns[ticketCol].text.None? {
          return InvalidTicket;
        }
        return RedeemToken(env, columns[ticketCol].text.value, key, principal, now, req.capabilities);
    }
  }

  // ---- Sealing -----------------------------------------------------------------------

  /** `seal_attach`'s request; `options` is what the ticket will carry, empty for
      none. */
  datatype SealRequest = SealRequest(catalogName: Bytes, options: Bytes, dataVersionSpec: Bytes,
    implementationVersion: Bytes, ttl: int)

  /** 0 asks for the ceiling; otherwise the request, capped at the ceiling; a
      ceiling of 0 is no ceiling. */
  function Lifetime(ttl: int, maxTtl: int): int {
    if ttl > 0 && (maxTtl == 0 || ttl < maxTtl) then ttl else maxTtl
  }

  /** The effective lifetime never exceeds what was asked or allowed, and is
      unlimited only if neither side set a limit. */
  lemma LifetimeIsLeast(ttl: int, maxTtl: int)
    requires ttl >= 0 && maxTtl >= 0
    ensures var life := Lifetime(ttl, maxTtl);
            && (life == 0 <==> ttl == 0 && maxTtl == 0)
            && (ttl > 0 ==> life <= ttl) && (maxTtl > 0 ==> life <= maxTtl)
            && (life == ttl || life == maxTtl)
  {
  }

  function ClaimsOf(req: SealRequest, issuedAt: int, maxTtl: int, id: Bytes): Claims {
    var life := Lifetime(req.ttl, maxTtl);
    Claims(issuedAt, if life > 0 then Int64(issuedAt + life) else 0,
           id, req.catalogName, req.dataVersionSpec, req.implementationVersion, req.options)
  }

  /** The end of `seal_attach`, once the request's options were found
      acceptable. */
  function Seal(env: Env, key: Bytes, principal: Bytes, req: SealRequest, issuedAt: int, maxTtl: int,
                id: Bytes, nonce: Bytes): Option<string> {
    Mint(env, key, principal, ClaimsOf(req, issuedAt, maxTtl, id), nonce)
  }

  /** The request strings are UTF-8, the options an Arrow record, and no int64
      sum overflows. */
  predicate Sealable(env: Env, req: SealRequest, issuedAt: int, maxTtl: int, id: Bytes) {
    && AllUtf8(env.utf8, [id, req.catalogName, req.dataVersionSpec, req.implementationVersion])
    && (req.options != [] ==> env.isRecord(req.options))
    && req.ttl >= 0 && maxTtl >= 0
    && InInt64(issuedAt) && InInt64(issuedAt + Lifetime(req.ttl, maxTtl) + SKEW)
  }

  /** Presenting `token` as the only option. */
  ghost predicate Presents(env: Env, req: Request, token: string) {
    && req.options.Some?
    && exists name :: env.row(req.options.value) == Columns([Column(name, Some(token))]) && env.isTicketOption(name)
  }

  lemma NoOverflow(value: int)
    requires InInt64(value)
    ensures Int64(value) == value
  {
  }

  /** When a ticket can be redeemed: from its issue to its expiry, each with a
      minute of clock skew; a lifetime of 0 never ends, and neither does one
      that ends exactly at the Unix epoch, which the format reads as no
      expiry. */
  predicate Live(issuedAt: int, life: int, now: int) {
    issuedAt - SKEW <= now && (life == 0 || issuedAt + life == 0 || now < issuedAt + life + SKEW)
  }

  lemma LifetimeChecked(req: SealRequest, issuedAt: int, maxTtl: int, id: Bytes, now: int)
    requires req.ttl >= 0 && maxTtl >= 0 && InInt64(issuedAt) && InInt64(issuedAt + Lifetime(req.ttl, maxTtl) + SKEW)
    requires InInt64(now) && InInt64(now + SKEW)
    ensures var c := ClaimsOf(req, issuedAt, maxTtl, id);
            CheckLifetime(c, now) == if Live(issuedAt, Lifetime(req.ttl, maxTtl), now) then Opened(c) else Expired
  {
    var life := Lifetime(req.ttl, maxTtl);
    NoOverflow(now + SKEW);
    NoOverflow(issuedAt + life);
    NoOverflow(issuedAt + life + SKEW);
  }

  lemma PresentedIsRedeemed(env: Env, req: Request, token: string, key: Bytes, principal: Bytes, now: int)
    requires Presents(env, req, token)
    ensures Redeem(env, req, key, principal, now) == RedeemToken(env, token, key, principal, now, req.capabilities)
  {
    var name :| env.row(req.options.value) == Columns([Column(name, Some(token))]) && env.isTicketOption(name);
    var columns := [Column(name, Some(token))];
    assert columns[0].name == name && columns[0].text == Some(token);
  }

  lemma SealedClaimsAreValid(env: Env, req: SealRequest, issuedAt: int, maxTtl: int, id: Bytes)
    requires Sealable(env, req, issuedAt, maxTtl, id)
    requires FieldRules(ClaimsOf(req, issuedAt, maxTtl, id)) && Encodable(ClaimsOf(req, issuedAt, maxTtl, id))
    ensures ValidClaims(env.utf8, ClaimsOf(req, issuedAt, maxTtl, id))
  {
    NoOverflow(issuedAt + Lifetime(req.ttl, maxTtl));
  }

  /** A sealed request is restored, whole, for the same principal and key exactly
      while the ticket is live; outside that window it is expired. */
  lemma SealThenRedeem(env: Env, key: Bytes, principal: Bytes, sealed: SealRequest, issuedAt: int,
                       maxTtl: int, id: Bytes, nonce: Bytes,
                       token: string, req: Request, now: int)
    requires EnvOk(env) && key != []
    requires Sealable(env, sealed, issuedAt, maxTtl, id)
    requires Seal(env, key, principal, sealed, issuedAt, maxTtl, id, nonce) == Some(token)
    requires Presents(env, req, token) && InInt64(now) && InInt64(now + SKEW)
    ensures Redeem(env, req, key, principal, now) ==
            if Live(issuedAt, Lifetime(sealed.ttl, maxTtl), now)
            then Restored(Request(sealed.catalogName, NonEmpty(sealed.options), NonEmpty(sealed.dataVersionSpec),
                                  NonEmpty(sealed.implementationVersion), req.capabilities))
            else ExpiredTicket
  {
    var c := ClaimsOf(sealed, issuedAt, maxTtl, id);
    SealedClaimsAreValid(env, sealed, issuedAt, maxTtl, id);
    OpenUndoesMint(env, key, principal, c, nonce, now);
    LifetimeChecked(sealed, issuedAt, maxTtl, id, now);
    PresentedIsRedeemed(env, req, token, key, principal, now);
  }

  /** A ticket with a limited lifetime that ends at Unix time 0 is sealed without an expiry: it is
      restored at every later time. */
  lemma EpochExpiryNeverEnds(env: Env, key: Bytes, principal: Bytes, sealed: SealRequest, issuedAt: int,
                             maxTtl: int, id: Bytes, nonce: Bytes,
                             token: string, req: Request, now: int)
    requires EnvOk(env) && key != []
    requires Sealable(env, sealed, issuedAt, maxTtl, id)
    requires Seal(env, key, principal, sealed, issuedAt, maxTtl, id, nonce) == Some(token)
    requires Presents(env, req, token) && InInt64(now) && InInt64(now + SKEW)
    requires Lifetime(sealed.ttl, maxTtl) > 0 && issuedAt + Lifetime(sealed.ttl, maxTtl) == 0 && issuedAt - SKEW <= now
    ensures ClaimsOf(sealed, issuedAt, maxTtl, id).expiresAt == 0
    ensures CheckLifetime(ClaimsOf(sealed, issuedAt, maxTtl, id), now) == Opened(ClaimsOf(sealed, issuedAt, maxTtl, id))
    ensures Redeem(env, req, key, principal, now).Restored?
  {
    LifetimeChecked(sealed, issuedAt, maxTtl, id, now);
    SealThenRedeem(env, key, principal, sealed, issuedAt, maxTtl, id, nonce, token, req, now);
  }
}
