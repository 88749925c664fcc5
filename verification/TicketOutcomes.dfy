/** Every outcome of redeeming, opening and minting an attach ticket, by a condition on what was
    presented (vgi/attach_ticket.go). */
module TicketOutcomes {
  import opened Wrappers
  import opened ByteStrings
  import opened Base64Url
  import opened TicketPayload
  import opened AttachTicket

  // ---- Opening -----------------------------------------------------------------------

  /** The token is the canonical text of an envelope that opens for this key and principal and carries
      these claims. */
  ghost predicate Carries(env: Env, key: Bytes, principal: Bytes, token: string, c: Claims) {
    && principal != [] && |token| <= MAX_CHARS
    && exists envelope: Bytes :: envelope != [] && token == PREFIX + EncodeToString(envelope) &&
         OpensTo(env, envelope, key, principal, c)
  }

  ghost predicate OpensTo(env: Env, envelope: Bytes, key: Bytes, principal: Bytes, c: Claims) {
    && env.crypto.open(envelope, NormalizeKey(env.crypto, key), Aad(principal), 1) == Some(Layout(env.words, c))
    && ValidClaims(env.utf8, c)
  }

  /** Issued at most a minute ahead of the clock, and not a minute past its expiry. */
  predicate InTime(c: Claims, now: int) {
    c.issuedAt <= Int64(now + 60) && (c.expiresAt == 0 || now < Int64(c.expiresAt + 60))
  }

  lemma TokenText(token: string, envelope: Bytes)
    requires envelope != [] && token == PREFIX + EncodeToString(envelope)
    ensures PREFIX <= token && DecodeTicketBase64Url(token[|PREFIX|..]) == Some(envelope)
  {
    assert token[|PREFIX|..] == EncodeToString(envelope);
    CanonicalExactly(EncodeToString(envelope), envelope);
  }

  lemma EnvelopeIsOpened(env: Env, key: Bytes, token: string, principal: Bytes, now: int, envelope: Bytes,
                         payload: Bytes, c: Claims)
    requires PREFIX <= token && |token| <= MAX_CHARS && principal != []
    requires DecodeTicketBase64Url(token[|PREFIX|..]) == Some(envelope)
    requires env.crypto.open(envelope, NormalizeKey(env.crypto, key), Aad(principal), 1) == Some(payload)
    requires Decode(env.words, env.utf8, payload) == Some(c)
    ensures Open(env, key, token, principal, now) == if InTime(c, now) then Opened(c) else Expired
  {
  }

  lemma CarriedIsOpened(env: Env, key: Bytes, token: string, principal: Bytes, now: int, c: Claims)
    requires WordsOk(env.words) && Carries(env, key, principal, token, c)
    ensures Open(env, key, token, principal, now) == if InTime(c, now) then Opened(c) else Expired
  {
    var envelope: Bytes :| envelope != [] && token == PREFIX + EncodeToString(envelope) &&
      OpensTo(env, envelope, key, principal, c);
    TokenText(token, envelope);
    PayloadExactly(env.words, env.utf8, Layout(env.words, c), c);
    EnvelopeIsOpened(env, key, token, principal, now, envelope, Layout(env.words, c), c);
  }

  lemma OpenedIsCarried(env: Env, key: Bytes, token: string, principal: Bytes, now: int) returns (c: Claims)
    requires WordsOk(env.words) && Open(env, key, token, principal, now) != Invalid
    ensures Carries(env, key, principal, token, c)
  {
    assert token == PREFIX + token[|PREFIX|..];
    var envelope := DecodeTicketBase64Url(token[|PREFIX|..]).value;
    CanonicalExactly(token[|PREFIX|..], envelope);
    var payload := env.crypto.open(envelope, NormalizeKey(env.crypto, key), Aad(principal), ENVELOPE_VERSION).value;
    c := Decode(env.words, env.utf8, payload).value;
    PayloadExactly(env.words, env.utf8, payload, c);
    assert OpensTo(env, envelope, key, principal, c);
  }

  /** A token opens to claims exactly when it carries them to this principal and key in time; it is
      expired exactly when it carries claims out of time; anything else is the one refusal. */
  lemma OpenExactly(env: Env, key: Bytes, token: string, principal: Bytes, now: int)
    requires WordsOk(env.words)
    ensures var o := Open(env, key, token, principal, now);
            && (forall c :: o == Opened(c) <==> Carries(env, key, principal, token, c) && InTime(c, now))
            && (o == Expired <==> exists c :: Carries(env, key, principal, token, c) && !InTime(c, now))
            && (o == Invalid <==> forall c :: !Carries(env, key, principal, token, c))
  {
    forall c | Carries(env, key, principal, token, c)
      ensures Open(env, key, token, principal, now) == if InTime(c, now) then Opened(c) else Expired
    {
      CarriedIsOpened(env, key, token, principal, now, c);
    }
    if Open(env, key, token, principal, now) != Invalid {
      var c := OpenedIsCarried(env, key, token, principal, now);
    }
  }

  // ---- Redeeming -----------------------------------------------------------------------

  ghost predicate NamesTicket(env: Env, columns: seq<Column>) {
    exists i :: 0 <= i < |columns| && env.isTicketOption(columns[i].name)
  }

  /** The options hold these columns. */
  ghost predicate Offers(env: Env, req: Request, columns: seq<Column>) {
    req.options.Some? && env.row(req.options.value) == Columns(columns)
  }

  /** The ticket option is the only one. */
  ghost predicate OffersOnlyTicket(env: Env, req: Request, column: Column) {
    Offers(env, req, [column]) && env.isTicketOption(column.name)
  }

  /** The ticket option is the only one, holds text, and the worker has a key. */
  ghost predicate OffersToken(env: Env, req: Request, key: Bytes, token: string) {
    key != [] && exists name :: OffersOnlyTicket(env, req, Column(name, Some(token)))
  }

  predicate OptionsReadable(env: Env, c: Claims) {
    c.options == [] || env.isRecord(c.options)
  }

  /** The request a ticket's claims stand for. */
  function Stands(c: Claims, capabilities: Bytes): Request {
    Request(c.catalogName,
            if c.options == [] then None else Some(c.options),
            if c.dataVersionSpec == [] then None else Some(c.dataVersionSpec),
            if c.implementationVersion == [] then None else Some(c.implementationVersion),
            capabilities)
  }

  /** The request is left alone exactly when it has no options, no row of them, or none that is a
      ticket. */
  lemma UntouchedExactly(env: Env, req: Request, key: Bytes, principal: Bytes, now: int)
    ensures Redeem(env, req, key, principal, now) == Untouched <==>
            || req.options.None?
            || env.row(req.options.value) == NoRow
            || exists columns :: Offers(env, req, columns) && !NamesTicket(env, columns)
  {
    if req.options.Some? && env.row(req.options.value).Columns? {
      var columns := env.row(req.options.value).columns;
      assert Offers(env, req, columns);
    }
  }

  /** Options that cannot be read are an error, and nothing else is. */
  lemma ReadErrorExactly(env: Env, req: Request, key: Bytes, principal: Bytes, now: int)
    ensures Redeem(env, req, key, principal, now) == ReadError <==>
            req.options.Some? && env.row(req.options.value) == Unreadable
  {
  }

  /** A ticket beside another option is refused as such, whatever it holds, before it is opened. */
  lemma NotAloneExactly(env: Env, req: Request, key: Bytes, principal: Bytes, now: int)
    ensures Redeem(env, req, key, principal, now) == NotAlone <==>
            exists columns :: Offers(env, req, columns) && NamesTicket(env, columns) && |columns| >= 2
  {
    if req.options.Some? && env.row(req.options.value).Columns? {
      var columns := env.row(req.options.value).columns;
      assert Offers(env, req, columns);
    }
  }

  lemma TokenIsRedeemed(env: Env, req: Request, key: Bytes, principal: Bytes, now: int, token: string)
    requires OffersToken(env, req, key, token)
    ensures Redeem(env, req, key, principal, now) == RedeemToken(env, token, key, principal, now, req.capabilities)
  {
    var name :| OffersOnlyTicket(env, req, Column(name, Some(token)));
    assert Presents(env, req, token);
    PresentedIsRedeemed(env, req, token, key, principal, now);
  }

  /** What is not decided by the shape of the options is decided by a token. */
  lemma TokenDecides(env: Env, req: Request, key: Bytes, principal: Bytes, now: int) returns (token: string)
    requires var r := Redeem(env, req, key, principal, now); r.Restored? || r == ExpiredTicket
    ensures OffersToken(env, req, key, token)
  {
    var columns := env.row(req.options.value).columns;
    token := columns[0].text.value;
    assert columns == [columns[0]] && columns[0] == Column(columns[0].name, Some(token));
    assert OffersOnlyTicket(env, req, Column(columns[0].name, Some(token)));
  }

  ghost predicate Redeems(env: Env, key: Bytes, principal: Bytes, now: int, token: string, c: Claims) {
    Carries(env, key, principal, token, c) && InTime(c, now) && OptionsReadable(env, c)
  }

  lemma RestoredIsCarried(env: Env, req: Request, key: Bytes, principal: Bytes, now: int)
    returns (token: string, c: Claims)
    requires WordsOk(env.words) && Redeem(env, req, key, principal, now).Restored?
    ensures OffersToken(env, req, key, token) && Redeems(env, key, principal, now, token, c)
    ensures Redeem(env, req, key, principal, now) == Restored(Stands(c, req.capabilities))
  {
    token := TokenDecides(env, req, key, principal, now);
    TokenIsRedeemed(env, req, key, principal, now, token);
    OpenExactly(env, key, token, principal, now);
    c := Open(env, key, token, principal, now).claims;
  }

  lemma CarriedIsRestored(env: Env, req: Request, key: Bytes, principal: Bytes, now: int, token: string, c: Claims)
    requires WordsOk(env.words) && OffersToken(env, req, key, token) && Redeems(env, key, principal, now, token, c)
    ensures Redeem(env, req, key, principal, now) == Restored(Stands(c, req.capabilities))
  {
    TokenIsRedeemed(env, req, key, principal, now, token);
    CarriedIsOpened(env, key, token, principal, now, c);
  }

  /** A request is restored exactly when the ticket is its one option, is text, the worker has a key,
      and the ticket carries claims to this principal in time whose options can be read; it is then
      the request of those claims. */
  lemma RestoredExactly(env: Env, req: Request, key: Bytes, principal: Bytes, now: int, restored: Request)
    requires WordsOk(env.words)
    ensures Redeem(env, req, key, principal, now) == Restored(restored) <==>
            exists token, c :: OffersToken(env, req, key, token) && Redeems(env, key, principal, now, token, c) &&
              restored == Stands(c, req.capabilities)
  {
    if Redeem(env, req, key, principal, now) == Restored(restored) {
      var token, c := RestoredIsCarried(env, req, key, principal, now);
    }
    if token, c :| OffersToken(env, req, key, token) && Redeems(env, key, principal, now, token, c) &&
                   restored == Stands(c, req.capabilities)
    {
      CarriedIsRestored(env, req, key, principal, now, token, c);
    }
  }

  ghost predicate Lapsed(env: Env, key: Bytes, principal: Bytes, now: int, token: string, c: Claims) {
    Carries(env, key, principal, token, c) && !InTime(c, now)
  }

  lemma ExpiredIsCarried(env: Env, req: Request, key: Bytes, principal: Bytes, now: int)
    returns (token: string, c: Claims)
    requires WordsOk(env.words) && Redeem(env, req, key, principal, now) == ExpiredTicket
    ensures OffersToken(env, req, key, token) && Lapsed(env, key, principal, now, token, c)
  {
    token := TokenDecides(env, req, key, principal, now);
    TokenIsRedeemed(env, req, key, principal, now, token);
    OpenExactly(env, key, token, principal, now);
    c :| Carries(env, key, principal, token, c) && !InTime(c, now);
  }

  lemma CarriedIsExpired(env: Env, req: Request, key: Bytes, principal: Bytes, now: int, token: string, c: Claims)
    requires WordsOk(env.words) && OffersToken(env, req, key, token) && Lapsed(env, key, principal, now, token, c)
    ensures Redeem(env, req, key, principal, now) == ExpiredTicket
  {
    TokenIsRedeemed(env, req, key, principal, now, token);
    CarriedIsOpened(env, key, token, principal, now, c);
  }

  /** It is expired exactly when such a ticket carries claims out of time. */
  lemma ExpiredExactly(env: Env, req: Request, key: Bytes, principal: Bytes, now: int)
    requires WordsOk(env.words)
    ensures Redeem(env, req, key, principal, now) == ExpiredTicket <==>
            exists token, c :: OffersToken(env, req, key, token) && Lapsed(env, key, principal, now, token, c)
  {
    if Redeem(env, req, key, principal, now) == ExpiredTicket {
      var token, c := ExpiredIsCarried(env, req, key, principal, now);
    }
    if token, c :| OffersToken(env, req, key, token) && Lapsed(env, key, principal, now, token, c) {
      CarriedIsExpired(env, req, key, principal, now, token, c);
    }
  }

  // ---- Minting -----------------------------------------------------------------------

  /** Thirty-two lower-case hexadecimal digits. */
  predicate LowerHex(id: Bytes) {
    |id| == 32 && forall i :: 0 <= i < |id| ==> 48 <= id[i] <= 57 || 97 <= id[i] <= 102
  }

  lemma {:induction false} EncodedLength(b: Bytes)
    ensures |EncodeToString(b)| == |b| / 3 * 4 + (if |b| % 3 == 0 then 0 else |b| % 3 + 1)
  {
    SplitLength(b);
  }

  lemma {:induction false} SplitLength(b: Bytes)
    ensures |Split(b)| == |b| / 3 * 4 + (if |b| % 3 == 0 then 0 else |b| % 3 + 1)
  {
    if |b| >= 3 { SplitLength(b[3..]); }
  }

  /** A ticket is minted exactly when there is a principal and a catalog name, the ID is 32 hexadecimal
      digits, the expiry is none or after the issue, no field is too long, and neither is the token. */
  lemma MintExactly(env: Env, key: Bytes, principal: Bytes, c: Claims, nonce: Bytes)
    ensures var envelope := env.crypto.seal(Layout(env.words, c), NormalizeKey(env.crypto, key), Aad(principal), 1,
              nonce);
            var n := |envelope|;
            && (Mint(env, key, principal, c, nonce).Some? <==>
                  && principal != [] && c.catalogName != [] && LowerHex(c.ticketId)
                  && (c.expiresAt == 0 || c.expiresAt > c.issuedAt)
                  && |c.options| <= 16384 && |c.catalogName| <= 65535
                  && |c.dataVersionSpec| <= 65535 && |c.implementationVersion| <= 65535
                  && 6 + n / 3 * 4 + (if n % 3 == 0 then 0 else n % 3 + 1) <= 32768)
            && (Mint(env, key, principal, c, nonce).Some? ==>
                  Mint(env, key, principal, c, nonce).value == "vgia1." + EncodeToString(envelope))
  {
    EncodedLength(env.crypto.seal(Layout(env.words, c), NormalizeKey(env.crypto, key), Aad(principal), 1, nonce));
    assert TextsOf(c)[0] == c.ticketId && TextsOf(c)[1] == c.catalogName;
    assert TextsOf(c)[2] == c.dataVersionSpec && TextsOf(c)[3] == c.implementationVersion;
  }

  /** The payload, field by field. */
  lemma PayloadFields(w: Words, c: Claims)
    ensures Layout(w, c) ==
            w.put64(c.issuedAt) + w.put64(c.expiresAt) +
            w.put16(|c.ticketId|) + c.ticketId +
            w.put16(|c.catalogName|) + c.catalogName +
            w.put16(|c.dataVersionSpec|) + c.dataVersionSpec +
            w.put16(|c.implementationVersion|) + c.implementationVersion +
            w.put32(|c.options|) + c.options
  {
    var t: seq<Bytes> := TextsOf(c);
    assert t[1..] == [c.catalogName, c.dataVersionSpec, c.implementationVersion];
    assert t[1..][1..] == [c.dataVersionSpec, c.implementationVersion];
    assert t[1..][1..][1..] == [c.implementationVersion];
    var last: seq<Bytes> := t[1..][1..][1..];
    assert last[1..] == [];
    assert Texts(w, t[1..][1..][1..]) == Text(w, c.implementationVersion) + [];
    assert Texts(w, t[1..][1..]) == Text(w, c.dataVersionSpec) + Texts(w, t[1..][1..][1..]);
    assert Texts(w, t[1..]) == Text(w, c.catalogName) + Texts(w, t[1..][1..]);
  }

  /** Test vectors of section 10 of RFC 4648, unpadded, and the two characters of the URL alphabet. */
  lemma TextVectors()
    ensures EncodeToString([102]) == "Zg" && EncodeToString([102, 111]) == "Zm8"
    ensures EncodeToString([102, 111, 111]) == "Zm9v" && EncodeToString([251, 255]) == "-_8"
  {
    var foo: Bytes := [102, 111, 111];
    assert foo[3..] == [];
    assert Split(foo) == [25, 38, 61, 47];
    assert Split([251, 255]) == [62, 63, 60];
  }
}
