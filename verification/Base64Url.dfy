/**
  Unpadded base64url (sections 3.5 and 5 of RFC 4648) as the attach-ticket
  parser reads it (vgi/attach_ticket.go, `decodeTicketBase64URL`): a permissive
  decoder followed by a re-encoding check.
 */
module Base64Url {
  import opened Wrappers
  import opened ByteStrings

  type Sextet = s: int | 0 <= s < 64

  function CharOf(s: Sextet): char {
    if s < 26 then ('A' as int + s) as char
    else if s < 52 then ('a' as int + s - 26) as char
    else if s < 62 then ('0' as int + s - 52) as char
    else if s == 62 then '-'
    else '_'
  }

  function SextetOf(c: char): Option<Sextet> {
    if 'A' <= c <= 'Z' then Some(c as int - 'A' as int)
    else if 'a' <= c <= 'z' then Some(c as int - 'a' as int + 26)
    else if '0' <= c <= '9' then Some(c as int - '0' as int + 52)
    else if c == '-' then Some(62)
    else if c == '_' then Some(63)
    else None
  }

  lemma CharRoundTrips(s: Sextet)
    ensures SextetOf(CharOf(s)) == Some(s)
  {
  }

  /** Bytes to sextets: three bytes make four, a rest of one or two makes two or
      three with zero bits at the end. */
  function Split(b: Bytes): seq<Sextet> {
    if b == [] then []
    else if |b| == 1 then [b[0] / 4, b[0] % 4 * 16]
    else if |b| == 2 then [b[0] / 4, b[0] % 4 * 16 + b[1] / 16, b[1] % 16 * 4]
    else [b[0] / 4, b[0] % 4 * 16 + b[1] / 16, b[1] % 16 * 4 + b[2] / 64, b[2] % 64] + Split(b[3..])
  }

  function First(a: Sextet, b: Sextet): Byte { a as int * 4 + b / 16 }

  function Second(b: Sextet, c: Sextet): Byte { b as int % 16 * 16 + c / 4 }

  function Third(c: Sextet, d: Sextet): Byte { c as int % 4 * 64 + d }

  /** Sextets to bytes; the bits after the last whole byte are dropped. */
  function Merge(s: seq<Sextet>): Bytes {
    if |s| < 2 then []
    else if |s| == 2 then [First(s[0], s[1])]
    else if |s| == 3 then [First(s[0], s[1]), Second(s[1], s[2])]
    else [First(s[0], s[1]), Second(s[1], s[2]), Third(s[2], s[3])] + Merge(s[4..])
  }

  lemma ThreeBytes(x: Byte, y: Byte, z: Byte)
    ensures First(x / 4, x % 4 * 16 + y / 16) == x
    ensures Second(x % 4 * 16 + y / 16, y % 16 * 4 + z / 64) == y
    ensures Third(y % 16 * 4 + z / 64, z % 64) == z
  {
  }

  lemma {:induction false} MergeUndoesSplit(b: Bytes)
    ensures Merge(Split(b)) == b
    ensures |Split(b)| % 4 != 1
  {
    if |b| >= 3 {
      MergeUndoesSplit(b[3..]);
      assert Split(b)[4..] == Split(b[3..]);
      ThreeBytes(b[0], b[1], b[2]);
      assert b == [b[0], b[1], b[2]] + b[3..];
    }
  }

  function Chars(s: seq<Sextet>): string {
    seq(|s|, i requires 0 <= i < |s| => CharOf(s[i]))
  }

  /** `base64.RawURLEncoding.EncodeToString`. */
  function EncodeToString(b: Bytes): string {
    Chars(Split(b))
  }

  /** `^[A-Za-z0-9_-]+$`. */
  predicate InAlphabet(text: string) {
    text != [] && forall i :: 0 <= i < |text| ==> SextetOf(text[i]).Some?
  }

  function Sextets(text: string): seq<Sextet>
    requires forall i :: 0 <= i < |text| ==> SextetOf(text[i]).Some?
  {
    seq(|text|, i requires 0 <= i < |text| => SextetOf(text[i]).value)
  }

  /** vgi/attach_ticket.go, `decodeTicketBase64URL`. */
  function DecodeTicketBase64Url(text: string): Option<Bytes> {
    if !InAlphabet(text) || |text| % 4 == 1 then None
    else
      var raw := Merge(Sextets(text));
      if EncodeToString(raw) != text then None else Some(raw)
  }

  lemma EncodedIsText(b: Bytes)
    requires b != []
    ensures InAlphabet(EncodeToString(b)) && Sextets(EncodeToString(b)) == Split(b)
  {
    var s := Split(b);
    forall i | 0 <= i < |s|
      ensures SextetOf(CharOf(s[i])) == Some(s[i])
    {
      CharRoundTrips(s[i]);
    }
  }

  /** Accepted text is exactly canonical text: one spelling per non-empty byte
      string. */
  lemma CanonicalExactly(text: string, raw: Bytes)
    ensures DecodeTicketBase64Url(text) == Some(raw) <==> raw != [] && text == EncodeToString(raw)
  {
    if raw != [] && text == EncodeToString(raw) {
      EncodedIsText(raw);
      MergeUndoesSplit(raw);
    }
  }
}
