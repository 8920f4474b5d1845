/**
 * The orderings the program sorts by. Python and numpy compare strings
 * code point by code point, integers numerically, and rows or tuples of
 * several columns lexicographically, column by column.
 */
module Order {

  /** Python's `a <= b` on `str`: code-point lexicographic order. */
  predicate StrLe(a: string, b: string)
    decreases |a|
  {
    a == [] || (b != [] && (a[0] < b[0] || (a[0] == b[0] && StrLe(a[1..], b[1..]))))
  }

  lemma {:induction false} StrLeReflexive(a: string)
    ensures StrLe(a, a)
    decreases |a|
  {
    if a != [] { StrLeReflexive(a[1..]); }
  }

  lemma {:induction false} StrLeTotal(a: string, b: string)
    ensures StrLe(a, b) || StrLe(b, a)
    decreases |a|
  {
    if a != [] && b != [] && a[0] == b[0] { StrLeTotal(a[1..], b[1..]); }
  }

  lemma {:induction false} StrLeTransitive(a: string, b: string, c: string)
    requires StrLe(a, b) && StrLe(b, c)
    ensures StrLe(a, c)
    decreases |a|
  {
    if a != [] && a[0] == b[0] && b[0] == c[0] { StrLeTransitive(a[1..], b[1..], c[1..]); }
  }

  lemma {:induction false} StrLeAntisymmetric(a: string, b: string)
    requires StrLe(a, b) && StrLe(b, a)
    ensures a == b
    decreases |a|
  {
    if a != [] {
      StrLeAntisymmetric(a[1..], b[1..]);
      assert a == [a[0]] + a[1..] && b == [b[0]] + b[1..];
    }
  }

  /** One cell of a sort key: an integer column value or a text column value. */
  datatype Value = Int(n: int) | Str(s: string)

  /**
   * Order of cells. A numpy column holds one kind only, so the order
   * between an `Int` and a `Str` is never used by the program; it is fixed
   * here (integers first) only so that the order is total.
   */
  predicate ValueLe(a: Value, b: Value) {
    match (a, b)
    case (Int(x), Int(y)) => x <= y
    case (Str(x), Str(y)) => StrLe(x, y)
    case (Int(_), Str(_)) => true
    case (Str(_), Int(_)) => false
  }

  lemma ValueLeReflexive(a: Value)
    ensures ValueLe(a, a)
  {
    if a.Str? { StrLeReflexive(a.s); }
  }

  lemma ValueLeTotal(a: Value, b: Value)
    ensures ValueLe(a, b) || ValueLe(b, a)
  {
    if a.Str? && b.Str? { StrLeTotal(a.s, b.s); }
  }

  lemma ValueLeTransitive(a: Value, b: Value, c: Value)
    requires ValueLe(a, b) && ValueLe(b, c)
    ensures ValueLe(a, c)
  {
    if a.Str? && b.Str? && c.Str? { StrLeTransitive(a.s, b.s, c.s); }
  }

  lemma ValueLeAntisymmetric(a: Value, b: Value)
    requires ValueLe(a, b) && ValueLe(b, a)
    ensures a == b
  {
    if a.Str? && b.Str? { StrLeAntisymmetric(a.s, b.s); }
  }

  /** A sort key: the values of the sort columns of one row, in column order. */
  type Key = seq<Value>

  /** Lexicographic order of keys, as numpy sorts a table by several columns. */
  predicate KeyLe(a: Key, b: Key)
    decreases |a|
  {
    a == [] || (b != [] && (if a[0] == b[0] then KeyLe(a[1..], b[1..]) else ValueLe(a[0], b[0])))
  }

  lemma {:induction false} KeyLeTotal(a: Key, b: Key)
    ensures KeyLe(a, b) || KeyLe(b, a)
    decreases |a|
  {
    if a != [] && b != [] {
      if a[0] == b[0] { KeyLeTotal(a[1..], b[1..]); } else { ValueLeTotal(a[0], b[0]); }
    }
  }

  lemma {:induction false} KeyLeTransitive(a: Key, b: Key, c: Key)
    requires KeyLe(a, b) && KeyLe(b, c)
    ensures KeyLe(a, c)
    decreases |a|
  {
    if a != [] {
      if a[0] == b[0] && b[0] == c[0] {
        KeyLeTransitive(a[1..], b[1..], c[1..]);
      } else if a[0] == b[0] {
        assert ValueLe(b[0], c[0]);
      } else if b[0] == c[0] {
        assert ValueLe(a[0], b[0]);
      } else {
        ValueLeTransitive(a[0], b[0], c[0]);
        if a[0] == c[0] { ValueLeAntisymmetric(a[0], b[0]); }
      }
    }
  }

  /** Keys in order have their first cells in order. */
  lemma KeyLeHead(a: Key, b: Key)
    requires a != [] && b != [] && KeyLe(a, b)
    ensures ValueLe(a[0], b[0])
  {
    if a[0] == b[0] { ValueLeReflexive(a[0]); }
  }
}
