/** Byte order, search and joining of strings, as Go's libraries do them. */
module Strings {

  /** Go's `<` on strings. */
  predicate StringLess(a: string, b: string) {
    if b == [] then false
    else if a == [] then true
    else if a[0] != b[0] then a[0] < b[0]
    else StringLess(a[1..], b[1..])
  }

  lemma {:induction false} StringOrder(a: string, b: string, c: string)
    ensures StringLess(a, b) ==> !StringLess(b, a)
    ensures StringLess(a, c) ==> StringLess(a, b) || StringLess(b, c)
    decreases |a| + |b| + |c|
  {
    if a != [] && b != [] {
      StringOrder(a[1..], b[1..], if c == [] then [] else c[1..]);
    } else if a == [] && b == [] {
    } else if b != [] && c != [] && a == [] {
    }
  }

  /** a and b are the same for k characters, and there a ends or has the smaller one. */
  ghost predicate FirstAt(a: string, b: string, k: int) {
    0 <= k <= |a| && k < |b| && (forall i :: 0 <= i < k ==> a[i] == b[i]) && (k == |a| || a[k] < b[k])
  }

  /** The order is decided by the first character that differs. */
  lemma {:induction false} FirstDifference(a: string, b: string)
    ensures StringLess(a, b) <==> exists k :: FirstAt(a, b, k)
    decreases |a|
  {
    if a == [] {
      assert b != [] ==> FirstAt(a, b, 0);
    } else if b != [] && a[0] == b[0] {
      FirstDifference(a[1..], b[1..]);
      if k :| FirstAt(a[1..], b[1..], k) {
        assert FirstAt(a, b, k + 1);
      }
      if k :| FirstAt(a, b, k) {
        assert FirstAt(a[1..], b[1..], k - 1);
      }
    } else if b != [] {
      assert a[0] < b[0] ==> FirstAt(a, b, 0);
    }
  }

  predicate HasPrefix(s: string, prefix: string) {
    prefix <= s
  }

  /** The text occurs somewhere in s. */
  predicate Contains(s: string, text: string) {
    exists i :: 0 <= i <= |s| && HasPrefix(s[i..], text)
  }
}
