/** The slice of the query builder the controllers and the middleware use, over a table held as a
    sequence of rows in storage order: `where(...)->get()`, `where(...)->first()` and
    `orderBy(column, 'desc')`. */
module Query {
  import opened Wrappers

  /** `where(...)->get()`: the rows that satisfy `keep`, in storage order. */
  function Where<T(==,!new)>(rows: seq<T>, keep: T -> bool): (r: seq<T>)
    ensures |r| <= |rows|
    ensures forall x :: x in r <==> x in rows && keep(x)
    ensures multiset(r) <= multiset(rows)
  {
    if rows == [] then []
    else
      var rest := Where(rows[1..], keep);
      assert rows == [rows[0]] + rows[1..];
      if keep(rows[0]) then [rows[0]] + rest else rest
  }

  /** `where(...)->first()`: the position of the first row that satisfies `keep`. */
  function First<T>(rows: seq<T>, keep: T -> bool): (r: Option<nat>)
    ensures r.Some? ==> r.value < |rows| && keep(rows[r.value])
    ensures r.Some? ==> forall j :: 0 <= j < r.value ==> !keep(rows[j])
    ensures r.None? <==> forall j :: 0 <= j < |rows| ==> !keep(rows[j])
  {
    if rows == [] then None
    else if keep(rows[0]) then Some(0)
    else match First(rows[1..], keep)
      case None => None
      case Some(k) => Some(k + 1)
  }

  /** Every row's key is at least the key of every row after it. */
  ghost predicate Descending<T>(s: seq<T>, key: T -> int) {
    forall i, j :: 0 <= i < j < |s| ==> key(s[i]) >= key(s[j])
  }

  /** A row whose key is at least the first key of a descending sequence can go in front. */
  lemma ConsDescending<T>(h: T, t: seq<T>, key: T -> int)
    requires Descending(t, key)
    requires t != [] ==> key(h) >= key(t[0])
    ensures Descending([h] + t, key)
  {
    var s := [h] + t;
    forall i, j | 0 <= i < j < |s| ensures key(s[i]) >= key(s[j]) {
      if i == 0 {
        assert s[j] == t[j - 1];
        assert key(t[0]) >= key(t[j - 1]);
      } else {
        assert s[i] == t[i - 1] && s[j] == t[j - 1];
      }
    }
  }

  /** Puts `x` in front of the first row whose key is not above its own. */
  function InsertDesc<T(==)>(x: T, s: seq<T>, key: T -> int): (r: seq<T>)
    requires Descending(s, key)
    ensures Descending(r, key)
    ensures multiset(r) == multiset(s) + multiset{x}
    ensures |r| == |s| + 1
    ensures r[0] == x || (s != [] && r[0] == s[0])
  {
    if s == [] || key(x) >= key(s[0]) then
      ConsDescending(x, s, key);
      [x] + s
    else
      var rest := InsertDesc(x, s[1..], key);
      assert s == [s[0]] + s[1..];
      ConsDescending(s[0], rest, key);
      [s[0]] + rest
  }

  /** `orderBy(column, 'desc')`: the same rows, newest key first. The database leaves the order
      of rows with equal keys open; this definition keeps them in storage order. */
  function OrderByDesc<T(==)>(s: seq<T>, key: T -> int): (r: seq<T>)
    ensures Descending(r, key)
    ensures multiset(r) == multiset(s)
    ensures |r| == |s|
  {
    if s == [] then []
    else
      assert s == [s[0]] + s[1..];
      InsertDesc(s[0], OrderByDesc(s[1..], key), key)
  }

  /** Narrowing a selection by a stricter condition selects the same rows as the stricter
      condition alone. */
  lemma {:induction false} WhereNarrows<T(!new)>(rows: seq<T>, wide: T -> bool, narrow: T -> bool)
    requires forall x :: narrow(x) ==> wide(x)
    ensures Where(Where(rows, wide), narrow) == Where(rows, narrow)
  {
    if rows != [] {
      WhereNarrows(rows[1..], wide, narrow);
    }
  }

  /** The id is a primary key: no two rows share it. */
  ghost predicate Unique<T>(rows: seq<T>, id: T -> int) {
    forall i, j :: 0 <= i < |rows| && 0 <= j < |rows| && id(rows[i]) == id(rows[j]) ==> i == j
  }
}
