/** A single value of a parsed table: a number (any numeric dtype) or a
    piece of text (an `object` column's string), and the order in which
    the dashboard's sorts compare them. */
module Cells {
  import opened Collections

  datatype Cell = Num(n: real) | Text(s: string)

  /** Lexicographic order on strings by code point, as Python compares `str`. */
  predicate LexLe(a: string, b: string) {
    if |a| == 0 then true
    else if |b| == 0 then false
    else if a[0] != b[0] then a[0] < b[0]
    else LexLe(a[1..], b[1..])
  }

  /** Numbers compare by value and text lexicographically. Python refuses
      to compare a number with a string; here every number comes first so
      that the order is total. */
  predicate CellLe(a: Cell, b: Cell) {
    match a
    case Num(x) => (match b case Num(y) => x <= y case Text(_) => true)
    case Text(x) => (match b case Num(_) => false case Text(y) => LexLe(x, y))
  }

  lemma {:induction false} LexLeTotal(a: string, b: string)
    ensures LexLe(a, b) || LexLe(b, a)
  {
    if |a| > 0 && |b| > 0 && a[0] == b[0] {
      LexLeTotal(a[1..], b[1..]);
    }
  }

  lemma {:induction false} LexLeTransitive(a: string, b: string, c: string)
    requires LexLe(a, b) && LexLe(b, c)
    ensures LexLe(a, c)
  {
    if |a| > 0 && |b| > 0 && |c| > 0 && a[0] == b[0] && b[0] == c[0] {
      LexLeTransitive(a[1..], b[1..], c[1..]);
    }
  }

  /** Two strings each `LexLe` the other are equal. */
  lemma {:induction false} LexLeAntisymmetric(a: string, b: string)
    requires LexLe(a, b) && LexLe(b, a)
    ensures a == b
  {
    if |a| > 0 && |b| > 0 {
      LexLeAntisymmetric(a[1..], b[1..]);
      assert a == [a[0]] + a[1..] && b == [b[0]] + b[1..];
    }
  }

  /** `CellLe` is a total order on cells: total, transitive and antisymmetric. */
  lemma CellLeTotalOrder()
    ensures TotalPreorder(CellLe)
    ensures forall a, b :: CellLe(a, b) && CellLe(b, a) ==> a == b
  {
    forall a, b
      ensures CellLe(a, b) || CellLe(b, a)
    {
      if a.Text? && b.Text? {
        LexLeTotal(a.s, b.s);
      }
    }
    forall a, b, c | CellLe(a, b) && CellLe(b, c)
      ensures CellLe(a, c)
    {
      if a.Text? && b.Text? && c.Text? {
        LexLeTransitive(a.s, b.s, c.s);
      }
    }
    forall a, b | CellLe(a, b) && CellLe(b, a)
      ensures a == b
    {
      if a.Text? && b.Text? {
        LexLeAntisymmetric(a.s, b.s);
      }
    }
  }
}
