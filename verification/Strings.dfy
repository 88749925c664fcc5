/**
  The lexicographic order of strings: SQL text comparison and Go's
  `strings.Compare`.
 */
module Strings {

  predicate TextLess(a: string, b: string)
    decreases |a|
  {
    b != [] && (a == [] || a[0] < b[0] || (a[0] == b[0] && TextLess(a[1..], b[1..])))
  }

  lemma {:induction false} TextLessIsTotal(a: string, b: string)
    ensures !TextLess(a, b) && !TextLess(b, a) <==> a == b
    ensures TextLess(a, b) ==> !TextLess(b, a)
  {
    if a != [] && b != [] && a[0] == b[0] {
      TextLessIsTotal(a[1..], b[1..]);
      assert a == [a[0]] + a[1..] && b == [b[0]] + b[1..];
    }
  }

  lemma {:induction false} TextLessIsTransitive(a: string, b: string, c: string)
    requires !TextLess(b, a) && !TextLess(c, b)
    ensures !TextLess(c, a)
  {
    if a != [] && b != [] && c != [] && a[0] == b[0] == c[0] {
      TextLessIsTransitive(a[1..], b[1..], c[1..]);
    }
  }
}
