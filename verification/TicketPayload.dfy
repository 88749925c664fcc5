/**
  The payload of an attach ticket (vgi/attach_ticket.go, `encodeTicketPayload`
  and `decodeTicketPayload`).  The integer codecs are parameters with stated
  laws, met by Go's little-endian ones.
 */
module TicketPayload {
  import opened Wrappers
  import opened ByteStrings

  const MAX_OPTIONS := 16 * 1024
  const MAX_TEXT := 0xFFFF

  /** Ticket ID, catalog name, data version and implementation version. */
  const TEXT_FIELDS := 4

  /** A fixed-width integer codec: every value in range has one encoding, and
      every byte string of that width is one. */
  ghost predicate WordCodec(put: int -> Bytes, get: Bytes -> int, width: nat, lo: int, hi: int) {
    && (forall v :: lo <= v < hi ==> |put(v)| == width && get(put(v)) == v)
    && (forall b :: |b| == width ==> lo <= get(b) < hi && put(get(b)) == b)
  }

  datatype Words = Words(put64: int -> Bytes, get64: Bytes -> int,
                         put16: int -> Bytes, get16: Bytes -> int,
                         put32: int -> Bytes, get32: Bytes -> int)

  ghost predicate WordsOk(w: Words) {
    && WordCodec(w.put64, w.get64, 8, -TWO_63, TWO_63)
    && WordCodec(w.put16, w.get16, 2, 0, TWO_16)
    && WordCodec(w.put32, w.get32, 4, 0, TWO_32)
  }

  /** All text fields are byte strings; `utf8` decides which are valid. */
  datatype Claims = Claims(
    issuedAt: int, expiresAt: int,
    ticketId: Bytes, catalogName: Bytes, dataVersionSpec: Bytes, implementationVersion: Bytes,
    options: Bytes)

  // ---- Encoding ----------------------------------------------------------------

  function Text(w: Words, text: Bytes): Bytes {
    w.put16(|text|) + text
  }

  function Options(w: Words, options: Bytes): Bytes {
    w.put32(|options|) + options
  }

  function Texts(w: Words, texts: seq<Bytes>): Bytes {
    if texts == [] then [] else Text(w, texts[0]) + Texts(w, texts[1..])
  }

  function TextsOf(c: Claims): (texts: seq<Bytes>)
    ensures |texts| == TEXT_FIELDS
  {
    [c.ticketId, c.catalogName, c.dataVersionSpec, c.implementationVersion]
  }

  function Layout(w: Words, c: Claims): Bytes {
    w.put64(c.issuedAt) + w.put64(c.expiresAt) + (Texts(w, TextsOf(c)) + Options(w, c.options))
  }

  predicate AllFit(texts: seq<Bytes>) {
    forall i :: 0 <= i < |texts| ==> |texts[i]| <= MAX_TEXT
  }

  /** `encodeTicketPayload` fails only on oversized fields. */
  predicate Encodable(c: Claims) {
    |c.options| <= MAX_OPTIONS && AllFit(TextsOf(c))
  }

  method WriteTexts(w: Words, buf0: Bytes, texts: seq<Bytes>) returns (r: Option<Bytes>)
    ensures r == if AllFit(texts) then Some(buf0 + Texts(w, texts)) else None
  {
    var buf := buf0;
    assert texts[0..] == texts;
    for i := 0 to |texts|
      invariant AllFit(texts[..i])
      invariant buf + Texts(w, texts[i..]) == buf0 + Texts(w, texts)
    {
      if |texts[i]| > MAX_TEXT {
        return None;
      }
      assert texts[i..][1..] == texts[i + 1..];
      buf := buf + w.put16(|texts[i]|) + texts[i];
      assert buf + Texts(w, texts[i + 1..]) == buf0 + Texts(w, texts);
    }
    assert texts[..|texts|] == texts && texts[|texts|..] == [];
    assert buf + [] == buf;
    return Some(buf);
  }

  /** vgi/attach_ticket.go, `encodeTicketPayload`. */
  method EncodeTicketPayload(w: Words, c: Claims) returns (r: Option<Bytes>)
    ensures r == if Encodable(c) then Some(Layout(w, c)) else None
  {
    if |c.options| > MAX_OPTIONS {
      return None;
    }
    var head := w.put64(c.issuedAt) + w.put64(c.expiresAt);
    var buf := WriteTexts(w, head, TextsOf(c));
    if buf.None? {
      return None;
    }
    assert buf.value + Options(w, c.options) == Layout(w, c);
    return Some(buf.value + Options(w, c.options));
  }

  // ---- Decoding ------------------------------------------------------------------

  /** What is read off the front, and what is left. */
  datatype Taken<T> = Taken(value: T, rest: Bytes)

  function TakeText(w: Words, utf8: Bytes -> bool, b: Bytes): Option<Taken<Bytes>> {
    if |b| < 2 then None
    else
      var n := w.get16(b[..2]);
      if n < 0 || 2 + n > |b| || !utf8(b[2..2 + n]) then None
      else Some(Taken(b[2..2 + n], b[2 + n..]))
  }

  function TakeTexts(w: Words, utf8: Bytes -> bool, b: Bytes, n: nat): Option<Taken<seq<Bytes>>> {
    if n == 0 then Some(Taken([], b))
    else match TakeText(w, utf8, b)
      case None => None
      case Some(first) =>
        match TakeTexts(w, utf8, first.rest, n - 1)
        case None => None
        case Some(more) => Some(Taken([first.value] + more.value, more.rest))
  }

  /** The trailing options, which must end the payload. */
  function TakeOptions(w: Words, b: Bytes): Option<Bytes> {
    if |b| < 4 then None
    else
      var n := w.get32(b[..4]);
      if n < 0 || n > MAX_OPTIONS || 4 + n != |b| then None else Some(b[4..])
  }

  /** `^[0-9a-f]{32}$`. */
  predicate IsTicketId(id: Bytes) {
    |id| == 32 && forall i :: 0 <= i < 32 ==> 48 <= id[i] <= 57 || 97 <= id[i] <= 102
  }

  predicate FieldRules(c: Claims) {
    && IsTicketId(c.ticketId)
    && c.catalogName != []
    && (c.expiresAt != 0 ==> c.expiresAt > c.issuedAt)
  }

  /** `decodeTicketPayload`, on what is left of the payload at each read. */
  function Decode(w: Words, utf8: Bytes -> bool, b: Bytes): Option<Claims>
  {
    if |b| < 16 then None
    else match TakeTexts(w, utf8, b[16..], TEXT_FIELDS)
      case None => None
      case Some(texts) =>
        match TakeOptions(w, texts.rest)
        case None => None
        case Some(options) =>
          if |texts.value| != TEXT_FIELDS then None
          else
            var c := Claims(w.get64(b[..8]), w.get64(b[8..16]),
                            texts.value[0], texts.value[1], texts.value[2], texts.value[3], options);
            if FieldRules(c) then Some(c) else None
  }

  predicate AllUtf8(utf8: Bytes -> bool, texts: seq<Bytes>) {
    forall i :: 0 <= i < |texts| ==> utf8(texts[i])
  }

  /** The claims a payload may carry. */
  predicate ValidClaims(utf8: Bytes -> bool, c: Claims) {
    && -TWO_63 <= c.issuedAt < TWO_63 && -TWO_63 <= c.expiresAt < TWO_63
    && Encodable(c) && AllUtf8(utf8, TextsOf(c)) && FieldRules(c)
  }

  lemma TakeTextExact(w: Words, utf8: Bytes -> bool, b: Bytes, text: Bytes, rest: Bytes)
    requires WordCodec(w.put16, w.get16, 2, 0, TWO_16)
    ensures TakeText(w, utf8, b) == Some(Taken(text, rest)) <==>
            utf8(text) && |text| <= MAX_TEXT && b == Text(w, text) + rest
  {
    if utf8(text) && |text| <= MAX_TEXT && b == Text(w, text) + rest {
      assert |w.put16(|text|)| == 2 && w.get16(w.put16(|text|)) == |text|;
      assert b[..2] == w.put16(|text|);
      assert b[2..2 + |text|] == text && b[2 + |text|..] == rest;
    }
    if TakeText(w, utf8, b) == Some(Taken(text, rest)) {
      assert w.put16(w.get16(b[..2])) == b[..2];
      assert b == b[..2] + text + rest;
    }
  }

  lemma {:induction false} TakeTextsExact(w: Words, utf8: Bytes -> bool, b: Bytes, texts: seq<Bytes>, rest: Bytes)
    requires WordCodec(w.put16, w.get16, 2, 0, TWO_16)
    ensures TakeTexts(w, utf8, b, |texts|) == Some(Taken(texts, rest)) <==>
            AllUtf8(utf8, texts) && AllFit(texts) && b == Texts(w, texts) + rest
    decreases |texts|
  {
    if texts == [] {
      assert [] + rest == rest;
    } else {
      var tail := Texts(w, texts[1..]) + rest;
      assert Texts(w, texts) + rest == Text(w, texts[0]) + tail;
      assert texts == [texts[0]] + texts[1..];
      if AllUtf8(utf8, texts) && AllFit(texts) && b == Texts(w, texts) + rest {
        TakeTextExact(w, utf8, b, texts[0], tail);
        TakeTextsExact(w, utf8, tail, texts[1..], rest);
      }
      if TakeTexts(w, utf8, b, |texts|) == Some(Taken(texts, rest)) {
        var first := TakeText(w, utf8, b).value;
        assert texts[1..] == TakeTexts(w, utf8, first.rest, |texts| - 1).value.value;
        TakeTextsExact(w, utf8, first.rest, texts[1..], rest);
        TakeTextExact(w, utf8, b, texts[0], first.rest);
      }
    }
  }

  lemma TakeOptionsExact(w: Words, b: Bytes, options: Bytes)
    requires WordCodec(w.put32, w.get32, 4, 0, TWO_32)
    ensures TakeOptions(w, b) == Some(options) <==> |options| <= MAX_OPTIONS && b == Options(w, options)
  {
    if |options| <= MAX_OPTIONS && b == Options(w, options) {
      assert |w.put32(|options|)| == 4 && w.get32(w.put32(|options|)) == |options|;
      assert b[..4] == w.put32(|options|) && b[4..] == options;
    }
    if TakeOptions(w, b) == Some(options) {
      assert w.put32(w.get32(b[..4])) == b[..4];
      assert b == b[..4] + b[4..];
    }
  }

  lemma HeadIsRead(w: Words, b: Bytes, c: Claims)
    requires WordCodec(w.put64, w.get64, 8, -TWO_63, TWO_63) && |b| >= 16
    requires c.issuedAt == w.get64(b[..8]) && c.expiresAt == w.get64(b[8..16])
    requires b[16..] == Texts(w, TextsOf(c)) + Options(w, c.options)
    ensures -TWO_63 <= c.issuedAt < TWO_63 && -TWO_63 <= c.expiresAt < TWO_63
    ensures b == Layout(w, c)
  {
    assert |b[..8]| == 8 && |b[8..16]| == 8;
    assert w.put64(c.issuedAt) == b[..8] && w.put64(c.expiresAt) == b[8..16];
    assert b == b[..8] + b[8..16] + b[16..];
  }

  lemma DecodeSound(w: Words, utf8: Bytes -> bool, b: Bytes, c: Claims)
    requires WordsOk(w) && Decode(w, utf8, b) == Some(c)
    ensures ValidClaims(utf8, c) && b == Layout(w, c)
  {
    var texts := TakeTexts(w, utf8, b[16..], TEXT_FIELDS).value;
    assert texts.value == TextsOf(c);
    TakeTextsExact(w, utf8, b[16..], TextsOf(c), texts.rest);
    TakeOptionsExact(w, texts.rest, c.options);
    HeadIsRead(w, b, c);
  }

  lemma DecodeComplete(w: Words, utf8: Bytes -> bool, c: Claims)
    requires WordsOk(w) && ValidClaims(utf8, c)
    ensures Decode(w, utf8, Layout(w, c)) == Some(c)
  {
    var b := Layout(w, c);
    var rest := Options(w, c.options);
    assert |w.put64(c.issuedAt)| == 8 && |w.put64(c.expiresAt)| == 8;
    assert b[..8] == w.put64(c.issuedAt) && b[8..16] == w.put64(c.expiresAt);
    assert b[16..] == Texts(w, TextsOf(c)) + rest;
    TakeTextsExact(w, utf8, b[16..], TextsOf(c), rest);
    TakeOptionsExact(w, rest, c.options);
  }

  /** Encoding and decoding are mutual inverses between valid claims and accepted
      payloads. */
  lemma PayloadExactly(w: Words, utf8: Bytes -> bool, b: Bytes, c: Claims)
    requires WordsOk(w)
    ensures Decode(w, utf8, b) == Some(c) <==> ValidClaims(utf8, c) && b == Layout(w, c)
  {
    if Decode(w, utf8, b) == Some(c) {
      DecodeSound(w, utf8, b, c);
    }
    if ValidClaims(utf8, c) && b == Layout(w, c) {
      DecodeComplete(w, utf8, c);
    }
  }

  /** `text`: read a length and that many bytes at the cursor. */
  method ReadText(w: Words, utf8: Bytes -> bool, payload: Bytes, pos0: nat) returns (text: Option<Bytes>, pos: nat)
    requires WordsOk(w) && pos0 <= |payload|
    ensures pos <= |payload|
    ensures TakeText(w, utf8, payload[pos0..]) == if text.Some? then Some(Taken(text.value, payload[pos..])) else None
  {
    pos := pos0;
    if pos + 2 > |payload| {
      return None, pos;
    }
    assert payload[pos0..][..2] == payload[pos0..pos0 + 2];
    var n := w.get16(payload[pos..pos + 2]);
    assert |payload[pos0..pos0 + 2]| == 2;
    pos := pos + 2;
    if pos + n > |payload| {
      return None, pos;
    }
    var body := payload[pos..pos + n];
    assert payload[pos0..][2..2 + n] == body;
    assert payload[pos0..][2 + n..] == payload[pos + n..];
    if !utf8(body) {
      return None, pos;
    }
    return Some(body), pos + n;
  }

  method ReadTexts(w: Words, utf8: Bytes -> bool, payload: Bytes, pos0: nat,
                   n: nat) returns (texts: Option<seq<Bytes>>, pos: nat)
    requires WordsOk(w) && pos0 <= |payload|
    ensures pos <= |payload|
    ensures texts.Some? <==> TakeTexts(w, utf8, payload[pos0..], n).Some?
    ensures texts.Some? ==>
              var taken := TakeTexts(w, utf8, payload[pos0..], n).value;
              taken.value == texts.value && taken.rest == payload[pos..] && |texts.value| == n
    decreases n
  {
    if n == 0 {
      return Some([]), pos0;
    }
    var first: Option<Bytes>;
    first, pos := ReadText(w, utf8, payload, pos0);
    if first.None? {
      return None, pos;
    }
    texts, pos := ReadTexts(w, utf8, payload, pos, n - 1);
    if texts.Some? {
      texts := Some([first.value] + texts.value);
    }
  }

  /** The options at the cursor, which must end the payload. */
  method ReadOptions(w: Words, payload: Bytes, pos0: nat) returns (options: Option<Bytes>)
    requires WordsOk(w) && pos0 <= |payload|
    ensures options == TakeOptions(w, payload[pos0..])
  {
    var pos := pos0;
    if pos + 4 > |payload| {
      return None;
    }
    assert payload[pos0..][..4] == payload[pos0..pos0 + 4];
    var n := w.get32(payload[pos..pos + 4]);
    assert |payload[pos0..pos0 + 4]| == 4;
    if n > MAX_OPTIONS {
      return None;
    }
    pos := pos + 4;
    if pos + n > |payload| {
      return None;
    }
    var opts := payload[pos..pos + n];
    pos := pos + n;
    if pos != |payload| {
      return None;
    }
    assert payload[pos0..][4..] == opts;
    return Some(opts);
  }

  /** vgi/attach_ticket.go, `decodeTicketPayload`: a cursor over the payload. */
  method DecodeTicketPayload(w: Words, utf8: Bytes -> bool, payload: Bytes) returns (r: Option<Claims>)
    requires WordsOk(w)
    ensures r == Decode(w, utf8, payload)
  {
    if 16 > |payload| {
      return None;
    }
    var texts, pos := ReadTexts(w, utf8, payload, 16, TEXT_FIELDS);
    if texts.None? {
      return None;
    }
    var t := texts.value;
    var options := ReadOptions(w, payload, pos);
    if options.None? {
      return None;
    }
    var c := Claims(w.get64(payload[..8]), w.get64(payload[8..16]), t[0], t[1], t[2], t[3], options.value);
    if !IsTicketId(c.ticketId) || c.catalogName == [] || (c.expiresAt != 0 && c.expiresAt <= c.issuedAt) {
      return None;
    }
    return Some(c);
  }

  // ---- Go's integer codecs meet the laws ----------------------------------------------

  lemma NumbersAre(width: nat, v: nat, b: Bytes)
    ensures v < Bound(width) ==> |LittleEndian(v, width)| == width && Number(LittleEndian(v, width)) == v
    ensures |b| == width ==> Number(b) < Bound(width) && LittleEndian(Number(b), width) == b
  {
    if v < Bound(width) {
      NumberOfLittleEndian(v, width);
    }
    if |b| == width {
      LittleEndianOfNumber(b);
    }
  }

  function GoWords(): Words {
    Words(PutUint64, GetInt64, PutUint16, GetUint, PutUint32, GetUint)
  }

  lemma Bounds()
    ensures Bound(2) == TWO_16 && Bound(4) == TWO_32 && Bound(8) == TWO_64
  {
    assert Bound(4) == 256 * (256 * Bound(2));
    assert Bound(8) == 256 * (256 * (256 * (256 * Bound(4))));
  }

  lemma Uint16Codec()
    ensures WordCodec(PutUint16, GetUint, 2, 0, TWO_16)
  {
    Bounds();
    forall v | 0 <= v < TWO_16 ensures |PutUint16(v)| == 2 && GetUint(PutUint16(v)) == v {
      NumbersAre(2, v % TWO_16, []);
    }
    forall b: Bytes | |b| == 2 ensures 0 <= GetUint(b) < TWO_16 && PutUint16(GetUint(b)) == b {
      NumbersAre(2, 0, b);
      assert GetUint(b) % TWO_16 == Number(b);
    }
  }

  lemma Uint32Codec()
    ensures WordCodec(PutUint32, GetUint, 4, 0, TWO_32)
  {
    Bounds();
    forall v | 0 <= v < TWO_32 ensures |PutUint32(v)| == 4 && GetUint(PutUint32(v)) == v {
      NumbersAre(4, v % TWO_32, []);
    }
    forall b: Bytes | |b| == 4 ensures 0 <= GetUint(b) < TWO_32 && PutUint32(GetUint(b)) == b {
      NumbersAre(4, 0, b);
      assert GetUint(b) % TWO_32 == Number(b);
    }
  }

  lemma Int64Codec()
    ensures WordCodec(PutUint64, GetInt64, 8, -TWO_63, TWO_63)
  {
    Bounds();
    forall v | -TWO_63 <= v < TWO_63 ensures |PutUint64(v)| == 8 && GetInt64(PutUint64(v)) == v {
      NumbersAre(8, v % TWO_64, []);
    }
    forall b: Bytes | |b| == 8 ensures -TWO_63 <= GetInt64(b) < TWO_63 && PutUint64(GetInt64(b)) == b {
      NumbersAre(8, 0, b);
      assert GetInt64(b) % TWO_64 == Number(b);
    }
  }

  lemma GoWordsAreOk()
    ensures WordsOk(GoWords())
  {
    Uint16Codec();
    Uint32Codec();
    Int64Codec();
  }
}
