/**
 * The query shapes the handlers issue against a table, with a table as the sequence of its
 * rows in storage order and `key` the column a query compares:
 * `.filter(cond).all()`, `.filter(col == k).first()`, `.offset(skip).limit(limit).all()`.
 */
module Tables {
  import opened Basics

  /** `.filter(keep).all()`: the rows satisfying `keep`, in table order. */
  function Filter<T(==,!new)>(rows: seq<T>, keep: T -> bool): (r: seq<T>)
    ensures |r| <= |rows|
    ensures forall x :: x in r <==> x in rows && keep(x)
  {
    if rows == [] then []
    else (if keep(rows[0]) then [rows[0]] else []) + Filter(rows[1..], keep)
  }

  /** Some row has `k` in the `key` column. */
  predicate HasKey<T, K(==)>(rows: seq<T>, key: T -> K, k: K) {
    exists i :: 0 <= i < |rows| && key(rows[i]) == k
  }

  /** The `key` column holds no value twice (a primary key or UNIQUE constraint). */
  predicate UniqueBy<T, K(==)>(rows: seq<T>, key: T -> K) {
    forall i, j :: 0 <= i < j < |rows| ==> key(rows[i]) != key(rows[j])
  }

  /** Position of the first row with `k` in the `key` column, -1 when there is none. */
  function IndexOf<T, K(==)>(rows: seq<T>, key: T -> K, k: K): (i: int)
    ensures -1 <= i < |rows|
    ensures 0 <= i ==> key(rows[i]) == k && forall j :: 0 <= j < i ==> key(rows[j]) != k
    ensures i == -1 <==> !HasKey(rows, key, k)
  {
    if rows == [] then -1
    else if key(rows[0]) == k then 0
    else
      var j := IndexOf(rows[1..], key, k);
      assert HasKey(rows, key, k) ==> HasKey(rows[1..], key, k) by {
        if HasKey(rows, key, k) {
          var w :| 0 <= w < |rows| && key(rows[w]) == k;
          assert key(rows[1..][w - 1]) == k;
        }
      }
      if j == -1 then -1 else j + 1
  }

  /** `.filter(key == k).first()`. */
  function Find<T, K(==)>(rows: seq<T>, key: T -> K, k: K): (r: Option<T>)
    ensures r.Some? <==> HasKey(rows, key, k)
    ensures r.Some? ==> r.value in rows && key(r.value) == k
  {
    var i := IndexOf(rows, key, k);
    if i < 0 then None else Some(rows[i])
  }

  /** The table after deleting the rows with `k` in the `key` column. */
  function RemoveKey<T(==,!new), K(==)>(rows: seq<T>, key: T -> K, k: K): (r: seq<T>)
    ensures forall x :: x in r <==> x in rows && key(x) != k
  {
    Filter(rows, x => key(x) != k)
  }

  /** The table after an UPDATE of the row whose key is that of `x`: every such row becomes `x`. */
  function ReplaceKey<T, K(==)>(rows: seq<T>, key: T -> K, x: T): (r: seq<T>)
    ensures |r| == |rows|
    ensures forall i :: 0 <= i < |rows| ==> r[i] == if key(rows[i]) == key(x) then x else rows[i]
  {
    seq(|rows|, i requires 0 <= i < |rows| => if key(rows[i]) == key(x) then x else rows[i])
  }

  /** The id an insert receives: one more than the largest id in the table, 1 for an empty table. */
  function NextKey<T>(rows: seq<T>, key: T -> int): (n: int)
    ensures 1 <= n
    ensures forall i :: 0 <= i < |rows| ==> key(rows[i]) < n
  {
    if rows == [] then 1
    else
      var m := NextKey(rows[1..], key);
      assert forall i :: 1 <= i < |rows| ==> key(rows[i]) < m by {
        forall i | 1 <= i < |rows| ensures key(rows[i]) < m {
          assert rows[i] == rows[1..][i - 1];
        }
      }
      if key(rows[0]) < m then m else key(rows[0]) + 1
  }

  function Min(a: int, b: int): int { if a <= b then a else b }

  /** `.offset(skip).limit(limit).all()`: at most `limit` rows, starting at position `skip`. */
  function Page<T>(rows: seq<T>, skip: nat, limit: nat): (r: seq<T>)
    ensures |r| == if |rows| <= skip then 0 else Min(limit, |rows| - skip)
    ensures forall i :: 0 <= i < |r| ==> r[i] == rows[skip + i]
  {
    if |rows| <= skip then [] else rows[skip..skip + Min(limit, |rows| - skip)]
  }

  /** Filtering twice by the same condition filters once. */
  lemma {:induction false} FilterIdempotent<T(!new)>(rows: seq<T>, keep: T -> bool)
    ensures Filter(Filter(rows, keep), keep) == Filter(rows, keep)
  {
    if rows != [] {
      FilterIdempotent(rows[1..], keep);
      var tail := Filter(rows[1..], keep);
      if keep(rows[0]) {
        assert Filter(rows, keep) == [rows[0]] + tail;
        assert ([rows[0]] + tail)[1..] == tail;
      } else {
        assert Filter(rows, keep) == tail;
      }
    }
  }

  /** A filter that every row passes changes nothing. */
  lemma {:induction false} FilterKeepsAll<T(!new)>(rows: seq<T>, keep: T -> bool)
    requires forall x :: x in rows ==> keep(x)
    ensures Filter(rows, keep) == rows
  {
    if rows != [] {
      FilterKeepsAll(rows[1..], keep);
      assert rows == [rows[0]] + rows[1..];
    }
  }

  /** Deleting a key no row has leaves the table as it was. */
  lemma RemoveAbsentKey<T(!new), K>(rows: seq<T>, key: T -> K, k: K)
    requires !HasKey(rows, key, k)
    ensures RemoveKey(rows, key, k) == rows
  {
    forall x | x in rows ensures key(x) != k {
      var i :| 0 <= i < |rows| && rows[i] == x;
    }
    FilterKeepsAll(rows, x => key(x) != k);
  }

  /** Deleting a key twice deletes it once. */
  lemma RemoveKeyIdempotent<T(!new), K>(rows: seq<T>, key: T -> K, k: K)
    ensures RemoveKey(RemoveKey(rows, key, k), key, k) == RemoveKey(rows, key, k)
  {
    FilterIdempotent(rows, x => key(x) != k);
  }

  /** Deleting rows keeps a unique column unique. */
  lemma RemoveKeyUnique<T(!new), K, C>(rows: seq<T>, key: T -> K, k: K, col: T -> C)
    requires UniqueBy(rows, col)
    ensures UniqueBy(RemoveKey(rows, key, k), col)
  {
    FilterUnique(rows, x => key(x) != k, col);
  }

  /** A value of column `col` survives a delete when the row carrying it is not deleted. */
  lemma RemoveKeyKeepsKey<T(!new), K, C>(rows: seq<T>, key: T -> K, k: K, col: T -> C, c: C)
    requires HasKey(rows, col, c)
    requires forall x :: x in rows && col(x) == c ==> key(x) != k
    ensures HasKey(RemoveKey(rows, key, k), col, c)
  {
    var i :| 0 <= i < |rows| && col(rows[i]) == c;
    MemberHasKey(RemoveKey(rows, key, k), col, rows[i]);
  }

  /** After deleting key `k` no row has key `k`. */
  lemma RemoveKeyRemoves<T(!new), K>(rows: seq<T>, key: T -> K, k: K)
    ensures !HasKey(RemoveKey(rows, key, k), key, k)
  {
  }

  /** A row of the table witnesses its key. */
  lemma MemberHasKey<T, K>(rows: seq<T>, key: T -> K, x: T)
    requires x in rows
    ensures HasKey(rows, key, key(x))
  {
    var i :| 0 <= i < |rows| && rows[i] == x;
  }

  /** A key found after filtering was in the table before. */
  lemma FilterHasKey<T(!new), K>(rows: seq<T>, keep: T -> bool, key: T -> K, k: K)
    requires HasKey(Filter(rows, keep), key, k)
    ensures HasKey(rows, key, k)
  {
    var f := Filter(rows, keep);
    var i :| 0 <= i < |f| && key(f[i]) == k;
    MemberHasKey(rows, key, f[i]);
  }

  /** A key survives a filter that keeps the row carrying it. */
  lemma FilterKeepsKey<T(!new), K>(rows: seq<T>, keep: T -> bool, key: T -> K, k: K)
    requires HasKey(rows, key, k)
    requires forall x :: x in rows && key(x) == k ==> keep(x)
    ensures HasKey(Filter(rows, keep), key, k)
  {
    var i :| 0 <= i < |rows| && key(rows[i]) == k;
    MemberHasKey(Filter(rows, keep), key, rows[i]);
  }

  /** Filtering keeps a unique column unique. */
  lemma {:induction false} FilterUnique<T(!new), K>(rows: seq<T>, keep: T -> bool, key: T -> K)
    requires UniqueBy(rows, key)
    ensures UniqueBy(Filter(rows, keep), key)
  {
    if rows != [] {
      var tail := rows[1..];
      assert UniqueBy(tail, key) by {
        forall i, j | 0 <= i < j < |tail| ensures key(tail[i]) != key(tail[j]) {
          assert tail[i] == rows[i + 1] && tail[j] == rows[j + 1];
        }
      }
      FilterUnique(tail, keep, key);
      var ft := Filter(tail, keep);
      if keep(rows[0]) {
        forall x | x in ft ensures key(x) != key(rows[0]) {
          var i :| 0 <= i < |tail| && tail[i] == x;
          assert rows[i + 1] == x;
        }
        var f := [rows[0]] + ft;
        assert Filter(rows, keep) == f;
        forall i, j | 0 <= i < j < |f| ensures key(f[i]) != key(f[j]) {
          assert f[j] == ft[j - 1];
          if 0 < i {
            assert f[i] == ft[i - 1];
          } else {
            assert ft[j - 1] in ft;
          }
        }
      }
    }
  }

  /** Appending a row whose key is new keeps the column unique. */
  lemma AppendUnique<T, K>(rows: seq<T>, key: T -> K, x: T)
    requires UniqueBy(rows, key) && !HasKey(rows, key, key(x))
    ensures UniqueBy(rows + [x], key)
  {
    var r := rows + [x];
    forall i, j | 0 <= i < j < |r| ensures key(r[i]) != key(r[j]) {
      if j == |rows| {
        assert r[i] == rows[i];
      } else {
        assert r[i] == rows[i] && r[j] == rows[j];
      }
    }
  }

  /** After an append the keys present are the old ones and the new row's. */
  lemma AppendHasKey<T, K>(rows: seq<T>, key: T -> K, x: T, k: K)
    ensures HasKey(rows + [x], key, k) <==> HasKey(rows, key, k) || key(x) == k
  {
    var r := rows + [x];
    if HasKey(rows, key, k) {
      var i :| 0 <= i < |rows| && key(rows[i]) == k;
      assert r[i] == rows[i];
    }
    if HasKey(r, key, k) && key(x) != k {
      var i :| 0 <= i < |r| && key(r[i]) == k;
      assert r[i] == rows[i];
    }
    if key(x) == k {
      assert r[|rows|] == x;
    }
  }

  /** In a table with a unique key, the row with that key is the one `Find` returns. */
  lemma FindUnique<T, K>(rows: seq<T>, key: T -> K, x: T)
    requires UniqueBy(rows, key) && x in rows
    ensures Find(rows, key, key(x)) == Some(x)
  {
    var i :| 0 <= i < |rows| && rows[i] == x;
    var j := IndexOf(rows, key, key(x));
    MemberHasKey(rows, key, x);
  }

  /** Replacing the row with `x`'s key by `x` keeps the same key values in the `key` column. */
  lemma ReplaceHasKey<T, K>(rows: seq<T>, key: T -> K, x: T, k: K)
    requires HasKey(rows, key, key(x))
    ensures HasKey(ReplaceKey(rows, key, x), key, k) <==> HasKey(rows, key, k)
  {
    var r := ReplaceKey(rows, key, x);
    if HasKey(rows, key, k) {
      var i :| 0 <= i < |rows| && key(rows[i]) == k;
      assert key(r[i]) == k;
    }
    if HasKey(r, key, k) {
      var i :| 0 <= i < |r| && key(r[i]) == k;
      if key(rows[i]) != key(x) {
        assert r[i] == rows[i];
      }
    }
  }

  /** Replacing a row by one with the same key keeps that key unique. */
  lemma ReplaceUnique<T, K>(rows: seq<T>, key: T -> K, x: T)
    requires UniqueBy(rows, key)
    ensures UniqueBy(ReplaceKey(rows, key, x), key)
  {
    var r := ReplaceKey(rows, key, x);
    forall i, j | 0 <= i < j < |r| ensures key(r[i]) != key(r[j]) {
    }
  }

  /** The rows of a table after a replacement are the old rows, apart from the replaced one. */
  lemma ReplaceMembers<T, K>(rows: seq<T>, key: T -> K, x: T, y: T)
    requires HasKey(rows, key, key(x))
    ensures y in ReplaceKey(rows, key, x) <==> y == x || (y in rows && key(y) != key(x))
  {
    var r := ReplaceKey(rows, key, x);
    if y == x {
      var i :| 0 <= i < |rows| && key(rows[i]) == key(x);
      assert r[i] == x;
    } else if y in rows && key(y) != key(x) {
      var i :| 0 <= i < |rows| && rows[i] == y;
      assert r[i] == y;
    }
  }
}
