/** Strings joined with a separator character. */
module Text {

  /** The first separator splits a string in only one way. */
  lemma {:induction false} FirstSeparatorSplits(sep: char, a: string, b: string, x: string, y: string)
    requires sep !in a && sep !in b
    requires a + [sep] + x == b + [sep] + y
    ensures a == b && x == y
  {
    var s, t := a + [sep] + x, b + [sep] + y;
    assert s[0] == t[0];
    if a != [] && b != [] {
      assert s[1..] == a[1..] + [sep] + x && t[1..] == b[1..] + [sep] + y;
      FirstSeparatorSplits(sep, a[1..], b[1..], x, y);
      assert a == [a[0]] + a[1..] && b == [b[0]] + b[1..];
    } else {
      assert a == [] && b == [];
      assert s[1..] == x && t[1..] == y;
    }
  }
}
