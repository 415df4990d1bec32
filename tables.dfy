/**
 * An SQLite table whose `id INTEGER PRIMARY KEY AUTOINCREMENT` column is
 * assigned by the store: rows are kept in ascending id order (the order every
 * `ORDER BY id` query returns), and `lastId` is the largest id ever issued, so
 * a deleted id is never handed out again.
 */
module Tables {
  import opened Wrappers
  import opened Ordering

  datatype Entry<R> = Entry(id: int, row: R)

  datatype Table<R(==)> = Table(entries: seq<Entry<R>>, lastId: nat)
  {
    ghost predicate Valid()
    {
      && (forall i :: 0 <= i < |entries| ==> 1 <= entries[i].id <= lastId)
      && (forall i, j :: 0 <= i < j < |entries| ==> entries[i].id < entries[j].id)
    }

    function Ids(): set<int>
    {
      set i | 0 <= i < |entries| :: entries[i].id
    }

    /** INSERT: the row gets the id after the largest one ever issued. */
    function Insert(r: R): (res: (Table<R>, int))
      requires Valid()
      ensures res.0.Valid()
      ensures res.1 == lastId + 1 && res.1 !in Ids()
      ensures forall e :: e in entries ==> e.id < res.1
      ensures res.0.entries == entries + [Entry(res.1, r)]
      ensures res.0.lastId == res.1
    {
      (Table(entries + [Entry(lastId + 1, r)], lastId + 1), lastId + 1)
    }

    /** `DELETE ... WHERE id = ?`; an absent id deletes nothing. */
    function Delete(id: int): (t: Table<R>)
      requires Valid()
      ensures t.Valid() && t.lastId == lastId
      ensures id !in t.Ids()
      ensures t.Ids() == Ids() - {id}
      ensures forall i :: 0 <= i < |t.entries| ==> t.entries[i] in entries && t.entries[i].id != id
      ensures forall i :: 0 <= i < |entries| && entries[i].id != id ==> entries[i] in t.entries
      ensures id !in Ids() ==> t == this
    {
      var t := Table(Remove(entries, id), lastId);
      RemoveSpec(entries, id);
      RemoveKeeps(this, t, id);
      t
    }

    static lemma RemoveKeeps(s: Table<R>, t: Table<R>, id: int)
      requires s.Valid() && t.lastId == s.lastId
      requires forall i :: 0 <= i < |t.entries| ==> t.entries[i] in s.entries && t.entries[i].id != id
      requires forall i :: 0 <= i < |s.entries| && s.entries[i].id != id ==> s.entries[i] in t.entries
      requires forall i, j :: 0 <= i < j < |t.entries| ==> t.entries[i].id < t.entries[j].id
      ensures t.Valid() && t.Ids() == s.Ids() - {id}
    {
      forall k | 0 <= k < |t.entries| ensures 1 <= t.entries[k].id <= s.lastId {
        var m :| 0 <= m < |s.entries| && s.entries[m] == t.entries[k];
      }
      IdsSub(s, t, id);
      IdsSup(s, t, id);
    }

    static lemma IdsSub(s: Table<R>, t: Table<R>, id: int)
      requires forall i :: 0 <= i < |t.entries| ==> t.entries[i] in s.entries && t.entries[i].id != id
      ensures t.Ids() <= s.Ids() - {id}
    {
      forall x | x in t.Ids() ensures x in s.Ids() && x != id {
        var k :| 0 <= k < |t.entries| && t.entries[k].id == x;
        var m :| 0 <= m < |s.entries| && s.entries[m] == t.entries[k];
      }
    }

    static lemma IdsSup(s: Table<R>, t: Table<R>, id: int)
      requires forall i :: 0 <= i < |s.entries| && s.entries[i].id != id ==> s.entries[i] in t.entries
      ensures s.Ids() - {id} <= t.Ids()
    {
      forall x | x in s.Ids() && x != id ensures x in t.Ids() {
        var m :| 0 <= m < |s.entries| && s.entries[m].id == x;
        var k :| 0 <= k < |t.entries| && t.entries[k] == s.entries[m];
      }
    }

    /** `DELETE FROM table`: the sequence of issued ids is kept. */
    function Clear(): (t: Table<R>)
      ensures t.entries == [] && t.lastId == lastId
      ensures t.Valid()
    {
      Table([], lastId)
    }

    /** The row stored under `id`, if any. */
    function Find(id: int): (r: Option<R>)
      requires Valid()
      ensures r.Some? <==> id in Ids()
      ensures r.Some? ==> Entry(id, r.value) in entries
    {
      FindIn(entries, id)
    }

    static function FindIn(es: seq<Entry<R>>, id: int): (r: Option<R>)
      ensures r.Some? <==> exists i :: 0 <= i < |es| && es[i].id == id
      ensures r.Some? ==> Entry(id, r.value) in es
    {
      if es == [] then None
      else if es[0].id == id then Some(es[0].row)
      else FindIn(es[1..], id)
    }

    /** `UPDATE ... SET row = f(row) WHERE keep(row)`: ids and order are unchanged. */
    function UpdateWhere(keep: R -> bool, f: R -> R): (t: Table<R>)
      requires Valid()
      ensures t.Valid() && t.lastId == lastId && t.Ids() == Ids()
      ensures |t.entries| == |entries|
      ensures forall i :: 0 <= i < |entries| ==>
                t.entries[i] == (if keep(entries[i].row) then Entry(entries[i].id, f(entries[i].row)) else entries[i])
    {
      var es := seq(|entries|, i requires 0 <= i < |entries| =>
        if keep(entries[i].row) then Entry(entries[i].id, f(entries[i].row)) else entries[i]);
      var t := Table(es, lastId);
      assert forall i :: 0 <= i < |es| ==> es[i].id == entries[i].id;
      assert t.Ids() == Ids() by {
        forall x | x in t.Ids() ensures x in Ids() {
          var i :| 0 <= i < |es| && es[i].id == x;
          assert entries[i].id == x;
        }
        forall x | x in Ids() ensures x in t.Ids() {
          var i :| 0 <= i < |entries| && entries[i].id == x;
          assert es[i].id == x;
        }
      }
      t
    }

    /** `UPDATE ... SET row = f(row) WHERE id = ?`; an absent id changes nothing. */
    function UpdateId(id: int, f: R -> R): (t: Table<R>)
      requires Valid()
      ensures t.Valid() && t.lastId == lastId && t.Ids() == Ids()
      ensures |t.entries| == |entries|
      ensures forall i :: 0 <= i < |entries| ==>
                t.entries[i] == (if entries[i].id == id then Entry(id, f(entries[i].row)) else entries[i])
    {
      var es := seq(|entries|, i requires 0 <= i < |entries| =>
        if entries[i].id == id then Entry(id, f(entries[i].row)) else entries[i]);
      var t := Table(es, lastId);
      assert forall i :: 0 <= i < |es| ==> es[i].id == entries[i].id;
      assert t.Ids() == Ids() by {
        forall x | x in t.Ids() ensures x in Ids() {
          var i :| 0 <= i < |es| && es[i].id == x;
          assert entries[i].id == x;
        }
        forall x | x in Ids() ensures x in t.Ids() {
          var i :| 0 <= i < |entries| && entries[i].id == x;
          assert es[i].id == x;
        }
      }
      t
    }

    /** `DELETE ... WHERE drop(row)`. */
    function DeleteWhere(drop: R -> bool): (t: Table<R>)
      requires Valid()
      ensures t.Valid() && t.lastId == lastId
      ensures t.entries == Select(entries, Not(drop))
      ensures forall i :: 0 <= i < |t.entries| ==> t.entries[i] in entries && !drop(t.entries[i].row)
      ensures forall i :: 0 <= i < |entries| && !drop(entries[i].row) ==> entries[i] in t.entries
    {
      var s := Select(entries, Not(drop));
      SelectSpec(entries, Not(drop));
      forall k | 0 <= k < |s| ensures 1 <= s[k].id <= lastId {
        assert s[k] in entries;
        var m :| 0 <= m < |entries| && entries[m] == s[k];
      }
      Table(s, lastId)
    }

    static function Not(drop: R -> bool): R -> bool
    {
      r => !drop(r)
    }

    /** `SELECT ... WHERE keep(row)` in stored (ascending id) order. */
    static function Select(es: seq<Entry<R>>, keep: R -> bool): seq<Entry<R>>
    {
      if es == [] then [] else (if keep(es[0].row) then [es[0]] else []) + Select(es[1..], keep)
    }

    static lemma SelectSpec(es: seq<Entry<R>>, keep: R -> bool)
      ensures forall i :: 0 <= i < |Select(es, keep)| ==> Select(es, keep)[i] in es && keep(Select(es, keep)[i].row)
      ensures forall i :: 0 <= i < |es| && keep(es[i].row) ==> es[i] in Select(es, keep)
      ensures |Select(es, keep)| <= |es|
      ensures (forall i, j :: 0 <= i < j < |es| ==> es[i].id < es[j].id) ==>
                (forall i, j :: 0 <= i < j < |Select(es, keep)| ==> Select(es, keep)[i].id < Select(es, keep)[j].id)
    {
      SelectMembers(es, keep);
      if forall i, j :: 0 <= i < j < |es| ==> es[i].id < es[j].id {
        SelectOrdered(es, keep);
      }
    }

    /** The selected rows are rows of `es` that `keep` accepts, and every such row is selected. */
    static lemma {:induction false} SelectMembers(es: seq<Entry<R>>, keep: R -> bool)
      ensures forall i :: 0 <= i < |Select(es, keep)| ==> Select(es, keep)[i] in es && keep(Select(es, keep)[i].row)
      ensures forall i :: 0 <= i < |es| && keep(es[i].row) ==> es[i] in Select(es, keep)
      ensures |Select(es, keep)| <= |es|
    {
      if es != [] {
        SelectMembers(es[1..], keep);
        assert es == [es[0]] + es[1..];
        assert forall i :: 1 <= i < |es| ==> es[i] == es[1..][i - 1];
      }
    }

    /** Selecting keeps ascending id order. */
    static lemma {:induction false} SelectOrdered(es: seq<Entry<R>>, keep: R -> bool)
      requires forall i, j :: 0 <= i < j < |es| ==> es[i].id < es[j].id
      ensures forall i, j :: 0 <= i < j < |Select(es, keep)| ==> Select(es, keep)[i].id < Select(es, keep)[j].id
    {
      if es != [] {
        var rest := Select(es[1..], keep);
        assert forall i :: 1 <= i < |es| ==> es[i] == es[1..][i - 1];
        SelectOrdered(es[1..], keep);
        SelectMembers(es[1..], keep);
        forall k | 0 <= k < |rest| ensures es[0].id < rest[k].id {
          var m :| 0 <= m < |es[1..]| && es[1..][m] == rest[k];
          assert es[m + 1] == rest[k];
        }
      }
    }

    static lemma {:induction false} SelectNone(es: seq<Entry<R>>, keep: R -> bool)
      requires forall i :: 0 <= i < |es| ==> !keep(es[i].row)
      ensures Select(es, keep) == []
    {
      if es != [] {
        SelectNone(es[1..], keep);
      }
    }

    /** Selecting from two runs of rows selects from each in turn. */
    static lemma {:induction false} SelectAppend(a: seq<Entry<R>>, b: seq<Entry<R>>, keep: R -> bool)
      ensures Select(a + b, keep) == Select(a, keep) + Select(b, keep)
    {
      if a != [] {
        assert (a + b)[1..] == a[1..] + b;
        SelectAppend(a[1..], b, keep);
      } else {
        assert a + b == b;
      }
    }

    /** Rows that all pass the filter are all selected, in order. */
    static lemma {:induction false} SelectAll(es: seq<Entry<R>>, keep: R -> bool)
      requires forall i :: 0 <= i < |es| ==> keep(es[i].row)
      ensures Select(es, keep) == es
    {
      if es != [] {
        SelectAll(es[1..], keep);
      }
    }

    /** Entries whose rows differ only outside `keep` select the same rows. */
    static lemma {:induction false} SelectAgree(a: seq<Entry<R>>, b: seq<Entry<R>>, keep: R -> bool)
      requires |a| == |b|
      requires forall i :: 0 <= i < |a| ==> a[i] == b[i] || (!keep(a[i].row) && !keep(b[i].row))
      ensures Select(a, keep) == Select(b, keep)
    {
      if a != [] {
        SelectAgree(a[1..], b[1..], keep);
      }
    }

    static function Remove(es: seq<Entry<R>>, id: int): seq<Entry<R>>
    {
      if es == [] then [] else (if es[0].id == id then [] else [es[0]]) + Remove(es[1..], id)
    }

    static lemma {:induction false} RemoveSpec(es: seq<Entry<R>>, id: int)
      ensures forall i :: 0 <= i < |Remove(es, id)| ==> Remove(es, id)[i] in es && Remove(es, id)[i].id != id
      ensures forall i :: 0 <= i < |es| && es[i].id != id ==> es[i] in Remove(es, id)
      ensures (forall i, j :: 0 <= i < j < |es| ==> es[i].id < es[j].id) ==>
                (forall i, j :: 0 <= i < j < |Remove(es, id)| ==> Remove(es, id)[i].id < Remove(es, id)[j].id)
      ensures (forall i :: 0 <= i < |es| ==> es[i].id != id) ==> Remove(es, id) == es
    {
      RemoveMembers(es, id);
      if forall i, j :: 0 <= i < j < |es| ==> es[i].id < es[j].id {
        RemoveSorted(es, id);
      }
      RemoveAbsent(es, id);
    }

    static lemma {:induction false} RemoveMembers(es: seq<Entry<R>>, id: int)
      ensures forall i :: 0 <= i < |Remove(es, id)| ==> Remove(es, id)[i] in es && Remove(es, id)[i].id != id
      ensures forall i :: 0 <= i < |es| && es[i].id != id ==> es[i] in Remove(es, id)
    {
      if es != [] {
        RemoveMembers(es[1..], id);
        assert forall i :: 1 <= i < |es| ==> es[i] == es[1..][i - 1];
      }
    }

    static lemma {:induction false} RemoveSorted(es: seq<Entry<R>>, id: int)
      requires forall i, j :: 0 <= i < j < |es| ==> es[i].id < es[j].id
      ensures forall i, j :: 0 <= i < j < |Remove(es, id)| ==> Remove(es, id)[i].id < Remove(es, id)[j].id
    {
      if es != [] {
        RemoveSorted(es[1..], id);
        RemoveMembers(es[1..], id);
        var rest := Remove(es[1..], id);
        forall k | 0 <= k < |rest| ensures es[0].id < rest[k].id {
          var m :| 0 <= m < |es[1..]| && es[1..][m] == rest[k];
          assert es[m + 1] == rest[k];
        }
      }
    }

    static lemma {:induction false} RemoveAbsent(es: seq<Entry<R>>, id: int)
      ensures (forall i :: 0 <= i < |es| ==> es[i].id != id) ==> Remove(es, id) == es
    {
      if es != [] {
        RemoveAbsent(es[1..], id);
      }
    }
  }

  /** A filtered, sorted query returns exactly the rows that pass the filter, ordered. */
  lemma SelectSorted<R>(es: seq<Entry<R>>, keep: R -> bool, key: Entry<R> -> Key)
    ensures SortedBy(SortBy(Table<R>.Select(es, keep), key), key)
    ensures multiset(SortBy(Table<R>.Select(es, keep), key)) == multiset(Table<R>.Select(es, keep))
    ensures forall i :: 0 <= i < |SortBy(Table<R>.Select(es, keep), key)| ==>
              SortBy(Table<R>.Select(es, keep), key)[i] in es && keep(SortBy(Table<R>.Select(es, keep), key)[i].row)
    ensures forall i :: 0 <= i < |es| && keep(es[i].row) ==> es[i] in SortBy(Table<R>.Select(es, keep), key)
  {
    var s := Table<R>.Select(es, keep);
    var r := SortBy(s, key);
    Table<R>.SelectSpec(es, keep);
    SortByCorrect(s, key);
    forall i | 0 <= i < |r| ensures r[i] in es && keep(r[i].row) {
      assert r[i] in multiset(r);
      var m :| 0 <= m < |s| && s[m] == r[i];
    }
    forall i | 0 <= i < |es| && keep(es[i].row) ensures es[i] in r {
      assert es[i] in s;
      assert es[i] in multiset(s);
    }
  }

  // ---- UNIQUE text columns ----

  /** The first row whose `key` column holds `k`; `None` in `key` stands for NULL. */
  function FindBy<R>(es: seq<Entry<R>>, key: R -> Option<string>, k: string): (r: Option<Entry<R>>)
    ensures r.Some? ==> r.value in es && key(r.value.row) == Some(k)
    ensures r.None? <==> forall i :: 0 <= i < |es| ==> key(es[i].row) != Some(k)
  {
    if es == [] then None
    else if key(es[0].row) == Some(k) then Some(es[0])
    else
      var r := FindBy(es[1..], key, k);
      assert forall i :: 1 <= i < |es| ==> es[i] == es[1..][i - 1];
      r
  }

  /** A `UNIQUE` column: no two rows hold the same non-NULL value. */
  ghost predicate UniqueBy<R>(es: seq<Entry<R>>, key: R -> Option<string>)
  {
    forall i, j :: 0 <= i < j < |es| && key(es[i].row).Some? ==> key(es[i].row) != key(es[j].row)
  }

  /** In a unique column, the row found by a value is the only row holding it. */
  lemma UniqueFind<R>(es: seq<Entry<R>>, key: R -> Option<string>, p: nat)
    requires UniqueBy(es, key) && p < |es| && key(es[p].row).Some?
    ensures FindBy(es, key, key(es[p].row).value) == Some(es[p])
  {
    if p > 0 {
      assert key(es[0].row) != key(es[p].row);
      assert es[p] == es[1..][p - 1];
      assert UniqueBy(es[1..], key) by {
        forall i, j | 0 <= i < j < |es[1..]| && key(es[1..][i].row).Some?
          ensures key(es[1..][i].row) != key(es[1..][j].row)
        {
          assert es[1..][i] == es[i + 1] && es[1..][j] == es[j + 1];
        }
      }
      UniqueFind(es[1..], key, p - 1);
    }
  }

  /** Appending a row whose value is not yet present keeps the column unique, and finds the row. */
  lemma UniqueSnoc<R>(es: seq<Entry<R>>, key: R -> Option<string>, e: Entry<R>)
    requires UniqueBy(es, key)
    requires key(e.row).Some? ==> FindBy(es, key, key(e.row).value).None?
    ensures UniqueBy(es + [e], key)
    ensures key(e.row).Some? ==> FindBy(es + [e], key, key(e.row).value) == Some(e)
  {
    var s := es + [e];
    forall i, j | 0 <= i < j < |s| && key(s[i].row).Some? ensures key(s[i].row) != key(s[j].row) {
      if j < |es| {
        assert s[i] == es[i] && s[j] == es[j];
      } else {
        assert s[i] == es[i];
      }
    }
    if key(e.row).Some? {
      UniqueFind(s, key, |es|);
    }
  }

  /** Rows rewritten without touching the column keep it unique. */
  lemma UniqueKeep<R>(a: seq<Entry<R>>, b: seq<Entry<R>>, key: R -> Option<string>)
    requires UniqueBy(a, key) && |a| == |b|
    requires forall i :: 0 <= i < |a| ==> key(b[i].row) == key(a[i].row)
    ensures UniqueBy(b, key)
  {
  }

  /** Rows taken from a table, in id order, keep a unique column unique. */
  lemma UniqueSub<R>(es: seq<Entry<R>>, s: seq<Entry<R>>, key: R -> Option<string>)
    requires UniqueBy(es, key)
    requires forall i, j :: 0 <= i < j < |es| ==> es[i].id < es[j].id
    requires forall i, j :: 0 <= i < j < |s| ==> s[i].id < s[j].id
    requires forall i :: 0 <= i < |s| ==> s[i] in es
    ensures UniqueBy(s, key)
  {
    forall i, j | 0 <= i < j < |s| && key(s[i].row).Some? ensures key(s[i].row) != key(s[j].row) {
      var m :| 0 <= m < |es| && es[m] == s[i];
      var n :| 0 <= n < |es| && es[n] == s[j];
      if m < n {
        assert key(es[m].row) != key(es[n].row);
      }
    }
  }

  /** An insert adds exactly the new id. */
  lemma InsertIds<R>(t: Table<R>, row: R)
    requires t.Valid()
    ensures t.Insert(row).0.Ids() == t.Ids() + {t.Insert(row).1}
  {
    var (u, id) := t.Insert(row);
    forall x | x in u.Ids() ensures x in t.Ids() + {id} {
      var i :| 0 <= i < |u.entries| && u.entries[i].id == x;
      if i < |t.entries| { assert u.entries[i] == t.entries[i]; }
    }
    forall x | x in t.Ids() ensures x in u.Ids() {
      var i :| 0 <= i < |t.entries| && t.entries[i].id == x;
      assert u.entries[i] == t.entries[i];
    }
    assert u.entries[|t.entries|].id == id;
  }

  /** Whether a row other than the one with id `id` holds `k` in the column. */
  function HeldByOther<R>(es: seq<Entry<R>>, key: R -> Option<string>, k: string, id: int): (b: bool)
    ensures b <==> exists i :: 0 <= i < |es| && es[i].id != id && key(es[i].row) == Some(k)
  {
    if es == [] then false
    else if es[0].id != id && key(es[0].row) == Some(k) then true
    else
      var b := HeldByOther(es[1..], key, k, id);
      assert forall i :: 1 <= i < |es| ==> es[i] == es[1..][i - 1];
      b
  }

  /**
   * Setting the column of the row with id `id` to a value no other row holds
   * keeps the column unique.
   */
  lemma UniqueSet<R>(a: seq<Entry<R>>, b: seq<Entry<R>>, key: R -> Option<string>, id: int)
    requires UniqueBy(a, key) && |a| == |b|
    requires forall i, j :: 0 <= i < j < |a| ==> a[i].id < a[j].id
    requires forall i :: 0 <= i < |a| ==> b[i] == a[i] || (a[i].id == id && b[i].id == id)
    requires forall i :: 0 <= i < |a| && a[i].id == id && key(b[i].row).Some? ==>
               !HeldByOther(a, key, key(b[i].row).value, id)
    ensures UniqueBy(b, key)
  {
    forall i, j | 0 <= i < j < |b| && key(b[i].row).Some? ensures key(b[i].row) != key(b[j].row) {
      if b[i] != a[i] {
        assert b[j] == a[j];
      } else if b[j] != a[j] && key(b[j].row).Some? {
        assert a[i].id != id;
      }
    }
  }
}
