/** The order of std::string, which std::map and std::sort use. */
module Ordering {
  import opened Bytes

  type Text = seq<Byte>

  predicate LexLeq(a: Text, b: Text) {
    a == [] || (b != [] && (a[0] < b[0] || (a[0] == b[0] && LexLeq(a[1..], b[1..]))))
  }

  predicate LexLess(a: Text, b: Text) {
    LexLeq(a, b) && a != b
  }

  lemma {:induction false} LexTotal(a: Text, b: Text)
    ensures LexLeq(a, b) || LexLeq(b, a)
    ensures LexLeq(a, b) && LexLeq(b, a) ==> a == b
  {
    if a != [] && b != [] && a[0] == b[0] {
      LexTotal(a[1..], b[1..]);
      assert a == [a[0]] + a[1..] && b == [b[0]] + b[1..];
    }
  }

  lemma {:induction false} LexTransitive(a: Text, b: Text, c: Text)
    requires LexLeq(a, b) && LexLeq(b, c)
    ensures LexLeq(a, c)
  {
    if a != [] && a[0] == b[0] == c[0] {
      LexTransitive(a[1..], b[1..], c[1..]);
    }
  }

  lemma LessTransitive(a: Text, b: Text, c: Text)
    requires LexLess(a, b) && LexLess(b, c)
    ensures LexLess(a, c)
  {
    LexTransitive(a, b, c);
    if a == c { LexTotal(a, b); }
  }
}
