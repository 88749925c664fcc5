/**
  `pathKey` (vgi/constraint_records.go): a column path as one string, each
  component behind its length in decimal, and the proof that no two paths share
  a key.  Strings are byte strings: a component's length is its number of bytes.
 */
module PathKeys {

  /** `%d` of a natural number. */
  function Decimal(n: nat): string {
    (if n < 10 then [] else Decimal(n / 10)) + [('0' as int + n % 10) as char]
  }

  function Value(digits: string): int {
    if digits == [] then 0
    else 10 * Value(digits[..|digits| - 1]) + (digits[|digits| - 1] as int - '0' as int)
  }

  lemma {:induction false} DecimalHasValue(n: nat)
    ensures Value(Decimal(n)) == n && ':' !in Decimal(n)
  {
    var init: string := if n < 10 then [] else Decimal(n / 10);
    assert Decimal(n)[..|init|] == init;
    if n >= 10 {
      DecimalHasValue(n / 10);
    }
  }

  function Component(part: string): string {
    Decimal(|part|) + [':'] + part
  }

  function PathKey(path: seq<string>): string {
    if path == [] then [] else Component(path[0]) + PathKey(path[1..])
  }

  /** The text before the first colon. */
  function Head(s: string): string {
    if s == [] || s[0] == ':' then [] else [s[0]] + Head(s[1..])
  }

  lemma {:induction false} HeadEndsAtColon(digits: string, rest: string)
    requires ':' !in digits
    ensures Head(digits + [':'] + rest) == digits
  {
    if digits != [] {
      HeadEndsAtColon(digits[1..], rest);
      assert (digits + [':'] + rest)[1..] == digits[1..] + [':'] + rest;
    }
  }

  /** The first component can be cut off a key again. */
  lemma ComponentCuts(a: string, x: string, b: string, y: string)
    requires Component(a) + x == Component(b) + y
    ensures a == b && x == y
  {
    var da, db := Decimal(|a|), Decimal(|b|);
    DecimalHasValue(|a|);
    DecimalHasValue(|b|);
    var s, t := Component(a) + x, Component(b) + y;
    assert s == da + [':'] + (a + x);
    assert t == db + [':'] + (b + y);
    HeadEndsAtColon(da, a + x);
    HeadEndsAtColon(db, b + y);
    assert |a| == Value(da) == Value(db) == |b|;
    var n := |da| + 1;
    assert a + x == s[n..] == t[n..] == b + y;
    assert a == (a + x)[..|a|] && b == (b + y)[..|a|];
    assert x == (a + x)[|a|..] && y == (b + y)[|a|..];
  }

  /** No two paths, of any components and any length, share a key. */
  lemma {:induction false} PathKeyIsInjective(p: seq<string>, q: seq<string>)
    requires PathKey(p) == PathKey(q)
    ensures p == q
  {
    if p != [] && q != [] {
      ComponentCuts(p[0], PathKey(p[1..]), q[0], PathKey(q[1..]));
      PathKeyIsInjective(p[1..], q[1..]);
      assert p == [p[0]] + p[1..] && q == [q[0]] + q[1..];
    }
  }

  lemma {:induction false} PathKeySnoc(path: seq<string>, part: string)
    ensures PathKey(path + [part]) == PathKey(path) + Component(part)
  {
    if path == [] {
      assert path + [part] == [part];
      assert PathKey([part]) == Component(part) + PathKey([]);
    } else {
      assert (path + [part])[1..] == path[1..] + [part];
      PathKeySnoc(path[1..], part);
    }
  }

  /** The loop of the source: append each component to a builder. */
  method BuildPathKey(path: seq<string>) returns (key: string)
    ensures key == PathKey(path)
  {
    key := [];
    for i := 0 to |path|
      invariant key == PathKey(path[..i])
    {
      PathKeySnoc(path[..i], path[i]);
      assert path[..i + 1] == path[..i] + [path[i]];
      key := key + Decimal(|path[i]|) + [':'] + path[i];
      assert key == PathKey(path[..i]) + Component(path[i]);
    }
    assert path[..|path|] == path;
  }
}
