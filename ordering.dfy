/**
 * The orders of SQL `ORDER BY` clauses over integer and text columns, and
 * an insertion sort that realises them. Text compares code point by code
 * point, which is SQLite's BINARY collation on UTF-8.
 */
module Ordering {

  /** One sort column value. */
  datatype KeyPart = I(i: int) | S(s: string)

  /** The values of the `ORDER BY` columns, most significant first. */
  type Key = seq<KeyPart>

  predicate StrLe(a: string, b: string)
    decreases |a|
  {
    a == [] || (b != [] && (a[0] < b[0] || (a[0] == b[0] && StrLe(a[1..], b[1..]))))
  }

  lemma {:induction false} StrLeTotal(a: string, b: string)
    ensures StrLe(a, b) || StrLe(b, a)
    decreases |a|
  {
    if a != [] && b != [] && a[0] == b[0] {
      StrLeTotal(a[1..], b[1..]);
    }
  }

  lemma {:induction false} StrLeTrans(a: string, b: string, c: string)
    requires StrLe(a, b) && StrLe(b, c)
    ensures StrLe(a, c)
    decreases |a|
  {
    if a != [] && a[0] == b[0] && b[0] == c[0] {
      StrLeTrans(a[1..], b[1..], c[1..]);
    }
  }

  lemma {:induction false} StrLeAntisym(a: string, b: string)
    requires StrLe(a, b) && StrLe(b, a)
    ensures a == b
    decreases |a|
  {
    if a != [] {
      StrLeAntisym(a[1..], b[1..]);
      assert a == [a[0]] + a[1..] && b == [b[0]] + b[1..];
    }
  }

  /** Columns of one kind compare by value; the mixed case does not arise in the model. */
  predicate PartLe(x: KeyPart, y: KeyPart)
  {
    match (x, y)
    case (I(a), I(b)) => a <= b
    case (S(a), S(b)) => StrLe(a, b)
    case (I(_), S(_)) => true
    case (S(_), I(_)) => false
  }

  lemma PartLeLaws(x: KeyPart, y: KeyPart, z: KeyPart)
    ensures PartLe(x, y) || PartLe(y, x)
    ensures PartLe(x, y) && PartLe(y, z) ==> PartLe(x, z)
    ensures PartLe(x, y) && PartLe(y, x) ==> x == y
  {
    if x.S? && y.S? {
      StrLeTotal(x.s, y.s);
      if PartLe(x, y) && PartLe(y, x) { StrLeAntisym(x.s, y.s); }
      if z.S? && PartLe(x, y) && PartLe(y, z) { StrLeTrans(x.s, y.s, z.s); }
    }
  }

  /** Lexicographic order on keys. */
  predicate KeyLe(a: Key, b: Key)
    decreases |a|
  {
    a == [] || (b != [] && ((a[0] != b[0] && PartLe(a[0], b[0])) || (a[0] == b[0] && KeyLe(a[1..], b[1..]))))
  }

  lemma {:induction false} KeyLeTotal(a: Key, b: Key)
    ensures KeyLe(a, b) || KeyLe(b, a)
    decreases |a|
  {
    if a != [] && b != [] {
      PartLeLaws(a[0], b[0], b[0]);
      if a[0] == b[0] { KeyLeTotal(a[1..], b[1..]); }
    }
  }

  lemma {:induction false} KeyLeTrans(a: Key, b: Key, c: Key)
    requires KeyLe(a, b) && KeyLe(b, c)
    ensures KeyLe(a, c)
    decreases |a|
  {
    if a != [] {
      PartLeLaws(a[0], b[0], c[0]);
      PartLeLaws(b[0], c[0], a[0]);
      PartLeLaws(c[0], a[0], b[0]);
      if a[0] == b[0] && b[0] == c[0] { KeyLeTrans(a[1..], b[1..], c[1..]); }
    }
  }

  lemma {:induction false} KeyLeAntisym(a: Key, b: Key)
    requires KeyLe(a, b) && KeyLe(b, a)
    ensures a == b
    decreases |a|
  {
    if a != [] {
      PartLeLaws(a[0], b[0], b[0]);
      KeyLeAntisym(a[1..], b[1..]);
      assert a == [a[0]] + a[1..] && b == [b[0]] + b[1..];
    }
  }

  /** Two integer columns. */
  lemma KeyLeInts(a: int, b: int, c: int, d: int)
    ensures KeyLe([I(a), I(b)], [I(c), I(d)]) <==> a < c || (a == c && b <= d)
  {
    assert [I(a), I(b)][1..] == [I(b)] && [I(c), I(d)][1..] == [I(d)];
    assert [I(b)][1..] == [] && [I(d)][1..] == [];
    assert KeyLe([I(b)], [I(d)]) <==> b <= d;
  }

  /** An integer column then a text column. */
  lemma KeyLeIntStr(a: int, x: string, c: int, y: string)
    ensures KeyLe([I(a), S(x)], [I(c), S(y)]) <==> a < c || (a == c && StrLe(x, y))
  {
    assert [I(a), S(x)][1..] == [S(x)] && [I(c), S(y)][1..] == [S(y)];
    assert [S(x)][1..] == [] && [S(y)][1..] == [];
    assert KeyLe([S(x)], [S(y)]) <==> StrLe(x, y) by {
      StrLeTotal(x, y);
      if StrLe(x, y) && StrLe(y, x) { StrLeAntisym(x, y); }
    }
  }

  predicate SortedBy<T>(s: seq<T>, key: T -> Key)
  {
    forall i, j :: 0 <= i < j < |s| ==> KeyLe(key(s[i]), key(s[j]))
  }

  function InsertBy<T>(x: T, s: seq<T>, key: T -> Key): seq<T>
  {
    if s == [] then [x]
    else if KeyLe(key(x), key(s[0])) then [x] + s
    else [s[0]] + InsertBy(x, s[1..], key)
  }

  /** Insertion sort by `key`: `ORDER BY` on a query's rows. */
  function SortBy<T>(s: seq<T>, key: T -> Key): seq<T>
  {
    if s == [] then [] else InsertBy(s[0], SortBy(s[1..], key), key)
  }

  lemma {:induction false} InsertByPerm<T>(x: T, s: seq<T>, key: T -> Key)
    ensures multiset(InsertBy(x, s, key)) == multiset{x} + multiset(s)
    ensures |InsertBy(x, s, key)| == |s| + 1
  {
    if s != [] && !KeyLe(key(x), key(s[0])) {
      InsertByPerm(x, s[1..], key);
      assert s == [s[0]] + s[1..];
    }
  }

  lemma {:induction false} InsertBySorted<T>(x: T, s: seq<T>, key: T -> Key)
    requires SortedBy(s, key)
    ensures SortedBy(InsertBy(x, s, key), key)
  {
    if s != [] {
      if KeyLe(key(x), key(s[0])) {
        var r := [x] + s;
        forall i, j | 0 <= i < j < |r| ensures KeyLe(key(r[i]), key(r[j])) {
          if i == 0 && j > 1 { KeyLeTrans(key(x), key(s[0]), key(s[j - 1])); }
        }
      } else {
        KeyLeTotal(key(x), key(s[0]));
        var t := s[1..];
        assert SortedBy(t, key);
        InsertBySorted(x, t, key);
        var it := InsertBy(x, t, key);
        InsertByAbove(x, s, key);
        var r := [s[0]] + it;
        forall i, j | 0 <= i < j < |r| ensures KeyLe(key(r[i]), key(r[j])) {
          if i > 0 { assert r[i] == it[i - 1] && r[j] == it[j - 1]; }
          else { assert r[j] == it[j - 1]; }
        }
      }
    }
  }

  /** Inserting `x` behind the head of `s` keeps every row at or above that head. */
  lemma InsertByAbove<T>(x: T, s: seq<T>, key: T -> Key)
    requires s != [] && SortedBy(s, key) && KeyLe(key(s[0]), key(x))
    ensures forall k :: 0 <= k < |InsertBy(x, s[1..], key)| ==> KeyLe(key(s[0]), key(InsertBy(x, s[1..], key)[k]))
  {
    var t := s[1..];
    InsertByPerm(x, t, key);
    var it := InsertBy(x, t, key);
    forall k | 0 <= k < |it| ensures KeyLe(key(s[0]), key(it[k])) {
      assert it[k] in multiset(it);
      assert it[k] == x || it[k] in multiset(t);
      if it[k] != x {
        var m :| 0 <= m < |t| && t[m] == it[k];
        assert t[m] == s[m + 1];
      }
    }
  }

  /** `SortBy` returns the same rows, ordered. */
  lemma {:induction false} SortByCorrect<T>(s: seq<T>, key: T -> Key)
    ensures SortedBy(SortBy(s, key), key)
    ensures multiset(SortBy(s, key)) == multiset(s)
    ensures |SortBy(s, key)| == |s|
  {
    if s != [] {
      SortByCorrect(s[1..], key);
      InsertBySorted(s[0], SortBy(s[1..], key), key);
      InsertByPerm(s[0], SortBy(s[1..], key), key);
      assert s == [s[0]] + s[1..];
    }
  }

  /** Rows already in order are returned as they are. */
  lemma {:induction false} SortBySorted<T>(s: seq<T>, key: T -> Key)
    requires SortedBy(s, key)
    ensures SortBy(s, key) == s
  {
    if s != [] {
      var t := s[1..];
      assert SortedBy(t, key);
      SortBySorted(t, key);
      if t != [] {
        assert KeyLe(key(s[0]), key(t[0]));
      }
      assert s == [s[0]] + t;
    }
  }

  lemma MultisetTail<T>(a: seq<T>, b: seq<T>)
    requires a != [] && b != [] && a[0] == b[0] && multiset(a) == multiset(b)
    ensures multiset(a[1..]) == multiset(b[1..])
  {
    assert a == [a[0]] + a[1..] && b == [b[0]] + b[1..];
    assert multiset(a) == multiset{a[0]} + multiset(a[1..]);
    assert multiset(b) == multiset{b[0]} + multiset(b[1..]);
    forall x ensures multiset(a[1..])[x] == multiset(b[1..])[x] {
      assert multiset(a)[x] == multiset{a[0]}[x] + multiset(a[1..])[x];
      assert multiset(b)[x] == multiset{b[0]}[x] + multiset(b[1..])[x];
    }
  }

  lemma SortedHeads<T>(a: seq<T>, b: seq<T>, key: T -> Key)
    requires a != [] && SortedBy(a, key) && SortedBy(b, key) && multiset(a) == multiset(b)
    requires forall i, j :: 0 <= i < |a| && 0 <= j < |a| && key(a[i]) == key(a[j]) ==> a[i] == a[j]
    ensures b != [] && a[0] == b[0]
  {
    assert a[0] in multiset(b);
    var i :| 0 <= i < |b| && b[i] == a[0];
    assert b[0] in multiset(a);
    var j :| 0 <= j < |a| && a[j] == b[0];
    if a[0] != b[0] {
      assert i > 0 && j > 0;
      assert KeyLe(key(b[0]), key(b[i]));
      assert KeyLe(key(a[0]), key(a[j]));
      KeyLeAntisym(key(a[0]), key(b[0]));
    }
  }

  /**
   * When no two rows share a key, the order is unique: two ordered
   * arrangements of the same rows are the same sequence.
   */
  lemma {:induction false} SortedUnique<T>(a: seq<T>, b: seq<T>, key: T -> Key)
    requires SortedBy(a, key) && SortedBy(b, key) && multiset(a) == multiset(b)
    requires forall i, j :: 0 <= i < |a| && 0 <= j < |a| && key(a[i]) == key(a[j]) ==> a[i] == a[j]
    ensures a == b
  {
    if a == [] {
      assert |b| == |multiset(b)| == 0;
    } else {
      SortedHeads(a, b, key);
      MultisetTail(a, b);
      var a', b' := a[1..], b[1..];
      assert SortedBy(a', key) && SortedBy(b', key);
      forall i, j | 0 <= i < |a'| && 0 <= j < |a'| && key(a'[i]) == key(a'[j])
        ensures a'[i] == a'[j]
      {
        assert a'[i] == a[i + 1] && a'[j] == a[j + 1];
      }
      SortedUnique(a', b', key);
      assert a == [a[0]] + a' && b == [b[0]] + b';
    }
  }
}
