/**
 * The `dishes` table and its DAO: `upsert` (insert or replace by id) and `delete` change the
 * table; `all`, `observe`, `recent`, `forgotten` and `top` are SQL queries, modelled as pure
 * functions of the rows. SQLite compares NULL below every integer.
 */
module DishStore {
  import opened Wrappers
  import opened Text
  import opened Dishes

  /** The three ORDER BY clauses the DAO uses. */
  datatype Order =
    | DateDesc            // ORDER BY dateCooked DESC
    | DateAsc             // ORDER BY dateCooked ASC
    | RatingThenDateDesc  // ORDER BY rating DESC, dateCooked DESC

  /** Rating `a` sorts strictly above rating `b` under DESC: NULL is the lowest value. */
  predicate RatedAbove(a: Option<Int32>, b: Option<Int32>) {
    a.Some? && (b.None? || a.value > b.value)
  }

  /** Under order `o`, `a` may stand before `b`. */
  predicate InOrder(o: Order, a: Dish, b: Dish) {
    match o
    case DateDesc => a.dateCooked >= b.dateCooked
    case DateAsc => a.dateCooked <= b.dateCooked
    case RatingThenDateDesc =>
      RatedAbove(a.rating, b.rating) || (a.rating == b.rating && a.dateCooked >= b.dateCooked)
  }

  predicate Sorted(o: Order, s: seq<Dish>) {
    forall i, j :: 0 <= i < j < |s| ==> InOrder(o, s[i], s[j])
  }

  /** Places `x` into `s` before the first row it may precede. */
  function Insert(o: Order, x: Dish, s: seq<Dish>): (r: seq<Dish>)
    ensures multiset(r) == multiset(s) + multiset{x}
  {
    if s == [] then [x]
    else if InOrder(o, x, s[0]) then [x] + s
    else
      assert s == [s[0]] + s[1..];
      [s[0]] + Insert(o, x, s[1..])
  }

  /** Under every order, one of any two rows may precede the other. */
  lemma InOrderTotal(o: Order, a: Dish, b: Dish)
    ensures InOrder(o, a, b) || InOrder(o, b, a)
  {
  }

  lemma InOrderTrans(o: Order, a: Dish, b: Dish, c: Dish)
    requires InOrder(o, a, b) && InOrder(o, b, c)
    ensures InOrder(o, a, c)
  {
  }

  /** A row that may precede every row of a sorted sequence can head it. */
  lemma HeadBeforeAll(o: Order, h: Dish, t: seq<Dish>)
    requires Sorted(o, t) && forall y :: y in t ==> InOrder(o, h, y)
    ensures Sorted(o, [h] + t)
  {
    var r := [h] + t;
    forall i, j | 0 <= i < j < |r| ensures InOrder(o, r[i], r[j]) {
      if i > 0 {
        assert r[i] == t[i - 1] && r[j] == t[j - 1];
      } else {
        assert r[j] in t;
      }
    }
  }

  /** Inserting into a sorted sequence keeps it sorted. */
  lemma {:induction false} InsertSorted(o: Order, x: Dish, s: seq<Dish>)
    requires Sorted(o, s)
    ensures Sorted(o, Insert(o, x, s))
  {
    if s == [] {
    } else if InOrder(o, x, s[0]) {
      forall y | y in s ensures InOrder(o, x, y) {
        var k :| 0 <= k < |s| && s[k] == y;
        if k > 0 {
          InOrderTrans(o, x, s[0], y);
        }
      }
      HeadBeforeAll(o, x, s);
    } else {
      InOrderTotal(o, x, s[0]);
      var tail := s[1..];
      assert Sorted(o, tail);
      InsertSorted(o, x, tail);
      var t := Insert(o, x, tail);
      forall y | y in t ensures InOrder(o, s[0], y) {
        assert y in multiset(t);
        assert y == x || y in multiset(tail);
        if y != x {
          var k :| 0 <= k < |tail| && tail[k] == y;
          assert s[k + 1] == y;
        }
      }
      HeadBeforeAll(o, s[0], t);
    }
  }

  /** A sort of `s` by `o`: a reordering of the same rows. */
  function SortBy(o: Order, s: seq<Dish>): (r: seq<Dish>)
    ensures multiset(r) == multiset(s)
  {
    if s == [] then []
    else
      assert s == [s[0]] + s[1..];
      Insert(o, s[0], SortBy(o, s[1..]))
  }

  /** The sort puts the rows in order `o`, and loses none of them. */
  lemma {:induction false} SortBySorted(o: Order, s: seq<Dish>)
    ensures Sorted(o, SortBy(o, s))
    ensures forall y :: y in s <==> y in SortBy(o, s)
  {
    if s != [] {
      SortBySorted(o, s[1..]);
      InsertSorted(o, s[0], SortBy(o, s[1..]));
    }
    var r := SortBy(o, s);
    forall y ensures y in s <==> y in r {
      assert y in s <==> y in multiset(s);
      assert y in r <==> y in multiset(r);
    }
  }

  /** SQLite's LIMIT: the first `n` rows; a negative limit places no bound. */
  function Limit(s: seq<Dish>, n: int): (r: seq<Dish>)
    ensures |r| == if 0 <= n < |s| then n else |s|
    ensures r == s[..|r|]
  {
    if 0 <= n < |s| then s[..n] else s
  }

  /** A prefix of a sorted sequence is sorted and keeps every row it leaves out behind every row it keeps. */
  lemma {:induction false} LimitOfSorted(o: Order, s: seq<Dish>, n: int)
    requires Sorted(o, s)
    ensures Sorted(o, Limit(s, n))
    ensures multiset(Limit(s, n)) <= multiset(s)
    ensures forall x, y :: x in Limit(s, n) && y in s && y !in Limit(s, n) ==> InOrder(o, x, y)
  {
    var r := Limit(s, n);
    assert s == r + s[|r|..];
    assert forall k :: 0 <= k < |r| ==> s[k] in r;
    forall x, y | x in r && y in s && y !in r ensures InOrder(o, x, y) {
      var i :| 0 <= i < |r| && r[i] == x;
      var j :| 0 <= j < |s| && s[j] == y;
      assert i < j;
    }
  }

  /** Sorting by `o` and keeping the first `n`: what `ORDER BY ... LIMIT :n` selects. */
  function SortLimit(o: Order, s: seq<Dish>, n: int): (r: seq<Dish>)
    ensures |r| == if 0 <= n < |s| then n else |s|
    ensures multiset(r) <= multiset(s)
    ensures !(0 <= n < |s|) ==> multiset(r) == multiset(s)
    ensures Sorted(o, r)
    ensures forall x, y :: x in r && y in s && y !in r ==> InOrder(o, x, y)
  {
    var t := SortBy(o, s);
    SortBySorted(o, s);
    LimitOfSorted(o, t, n);
    Limit(t, n)
  }

  /** Every id in the table belongs to one row only. */
  predicate UniqueIds(rows: seq<Dish>) {
    forall i, j :: 0 <= i < j < |rows| ==> rows[i].id != rows[j].id
  }

  /** `SELECT * FROM dishes WHERE id = :id`. */
  function Observe(rows: seq<Dish>, id: int): (r: Option<Dish>)
    ensures r.Some? ==> r.value in rows && r.value.id == id
    ensures r.None? <==> forall i :: 0 <= i < |rows| ==> rows[i].id != id
  {
    if rows == [] then None
    else if rows[0].id == id then Some(rows[0])
    else
      var r := Observe(rows[1..], id);
      assert forall i :: 1 <= i < |rows| ==> rows[i] == rows[1..][i - 1];
      r
  }

  /** With unique ids, a row is what its own id looks up. */
  lemma ObserveRow(rows: seq<Dish>, i: int)
    requires UniqueIds(rows) && 0 <= i < |rows|
    ensures Observe(rows, rows[i].id) == Some(rows[i])
  {
    var v := Observe(rows, rows[i].id).value;
    var j :| 0 <= j < |rows| && rows[j] == v;
  }

  /** `SELECT * FROM dishes ORDER BY dateCooked DESC`. */
  function All(rows: seq<Dish>): (r: seq<Dish>)
    ensures multiset(r) == multiset(rows)
    ensures forall i, j :: 0 <= i < j < |r| ==> r[i].dateCooked >= r[j].dateCooked
  {
    SortBySorted(DateDesc, rows);
    SortBy(DateDesc, rows)
  }

  /** `SELECT * FROM dishes ORDER BY dateCooked DESC LIMIT :n`. */
  function Recent(rows: seq<Dish>, n: int): (r: seq<Dish>)
    ensures |r| == if 0 <= n < |rows| then n else |rows|
    ensures multiset(r) <= multiset(rows)
    ensures forall i, j :: 0 <= i < j < |r| ==> r[i].dateCooked >= r[j].dateCooked
    ensures forall x, y :: x in r && y in rows && y !in r ==> y.dateCooked <= x.dateCooked
  {
    var r := SortLimit(DateDesc, rows, n);
    assert Sorted(DateDesc, r);
    r
  }

  /** `SELECT * FROM dishes ORDER BY rating DESC, dateCooked DESC LIMIT :n`. */
  function Top(rows: seq<Dish>, n: int): (r: seq<Dish>)
    ensures |r| == if 0 <= n < |rows| then n else |rows|
    ensures multiset(r) <= multiset(rows)
    ensures forall i, j :: 0 <= i < j < |r| && r[j].rating.Some? ==>
      r[i].rating.Some? && r[i].rating.value >= r[j].rating.value
    ensures forall i, j :: 0 <= i < j < |r| && r[i].rating == r[j].rating ==>
      r[i].dateCooked >= r[j].dateCooked
    ensures forall x, y :: x in r && y in rows && y !in r ==> InOrder(RatingThenDateDesc, x, y)
  {
    var r := SortLimit(RatingThenDateDesc, rows, n);
    assert Sorted(RatingThenDateDesc, r);
    r
  }

  /** The WHERE clause of `forgotten`: a NULL rating never satisfies `rating >= :min`. */
  predicate Qualifies(d: Dish, min: int, cutoff: int) {
    d.rating.Some? && d.rating.value >= min && d.dateCooked <= cutoff
  }

  /** The rows satisfying the WHERE clause of `forgotten`, in table order. */
  function Where(rows: seq<Dish>, min: int, cutoff: int): (r: seq<Dish>)
    ensures multiset(r) <= multiset(rows)
    ensures forall x :: x in r <==> x in rows && Qualifies(x, min, cutoff)
  {
    if rows == [] then []
    else
      var t := Where(rows[1..], min, cutoff);
      assert rows == [rows[0]] + rows[1..];
      if Qualifies(rows[0], min, cutoff) then [rows[0]] + t else t
  }

  lemma InSubMultiset(a: seq<Dish>, b: seq<Dish>, x: Dish)
    requires multiset(a) <= multiset(b) && x in a
    ensures x in b
  {
    assert x in multiset(a);
  }

  /**
   * `SELECT * FROM dishes WHERE rating >= :min AND dateCooked <= :cutoff
   *  ORDER BY dateCooked ASC LIMIT :n`.
   */
  function Forgotten(rows: seq<Dish>, min: int, cutoff: int, n: int): (r: seq<Dish>)
    ensures multiset(r) <= multiset(rows)
    ensures forall x :: x in r ==> Qualifies(x, min, cutoff)
    ensures forall i, j :: 0 <= i < j < |r| ==> r[i].dateCooked <= r[j].dateCooked
    ensures n >= 0 ==> |r| <= n
    ensures forall y :: y in rows && Qualifies(y, min, cutoff) && y !in r ==>
      |r| == n && forall x :: x in r ==> x.dateCooked <= y.dateCooked
  {
    ForgottenSelection(rows, min, cutoff, n);
    SortLimit(DateAsc, Where(rows, min, cutoff), n)
  }

  /** The selection `forgotten` makes, stated against the rows of the table. */
  lemma ForgottenSelection(rows: seq<Dish>, min: int, cutoff: int, n: int)
    ensures var r := SortLimit(DateAsc, Where(rows, min, cutoff), n);
      && (forall x :: x in r ==> Qualifies(x, min, cutoff))
      && (forall y :: y in rows && Qualifies(y, min, cutoff) && y !in r ==>
            |r| == n && forall x :: x in r ==> x.dateCooked <= y.dateCooked)
  {
    var w := Where(rows, min, cutoff);
    var r := SortLimit(DateAsc, w, n);
    forall x | x in r ensures Qualifies(x, min, cutoff) { InSubMultiset(r, w, x); }
    forall y | y in rows && Qualifies(y, min, cutoff) && y !in r
      ensures |r| == n && forall x :: x in r ==> x.dateCooked <= y.dateCooked
    {
      assert y in w;
      assert !(0 <= n < |w|) ==> y in r by {
        if !(0 <= n < |w|) { InSubMultiset(w, r, y); }
      }
      assert forall x :: x in r ==> InOrder(DateAsc, x, y);
    }
  }

  /** The rows of `rows` with an id other than `id`, in order. */
  function WithoutId(rows: seq<Dish>, id: int): (r: seq<Dish>)
    ensures forall x :: x in r <==> x in rows && x.id != id
    ensures Observe(rows, id).None? ==> r == rows
  {
    if rows == [] then []
    else
      var t := WithoutId(rows[1..], id);
      assert rows == [rows[0]] + rows[1..];
      if rows[0].id == id then t else [rows[0]] + t
  }

  /** A row whose id no row of `t` has can head `t` without breaking unique ids. */
  lemma HeadUnique(h: Dish, t: seq<Dish>)
    requires UniqueIds(t) && forall x :: x in t ==> x.id != h.id
    ensures UniqueIds([h] + t)
  {
    var r := [h] + t;
    forall i, j | 0 <= i < j < |r| ensures r[i].id != r[j].id {
      if i > 0 {
        assert r[i] == t[i - 1] && r[j] == t[j - 1];
      } else {
        assert r[j] in t;
      }
    }
  }

  /** Removing an id from a table with unique ids keeps them unique and drops exactly one row if present. */
  lemma {:induction false} WithoutIdUnique(rows: seq<Dish>, id: int)
    requires UniqueIds(rows)
    ensures UniqueIds(WithoutId(rows, id))
    ensures |WithoutId(rows, id)| == if Observe(rows, id).Some? then |rows| - 1 else |rows|
  {
    if rows != [] {
      var tail := rows[1..];
      assert UniqueIds(tail);
      WithoutIdUnique(tail, id);
      if rows[0].id == id {
        TailLacksHeadId(rows);
      } else {
        var t := WithoutId(tail, id);
        assert WithoutId(rows, id) == [rows[0]] + t;
        TailLacksHeadId(rows);
        HeadUnique(rows[0], t);
        assert Observe(rows, id) == Observe(tail, id);
      }
    }
  }

  lemma TailLacksHeadId(rows: seq<Dish>)
    requires UniqueIds(rows) && rows != []
    ensures forall x :: x in rows[1..] ==> x.id != rows[0].id
    ensures Observe(rows[1..], rows[0].id).None?
  {
    assert forall k :: 0 <= k < |rows| - 1 ==> rows[1..][k] == rows[k + 1];
  }

  /** Replacing the row that holds an id changes what that id looks up and nothing else. */
  lemma {:induction false} ReplaceRow(rows: seq<Dish>, i: int, row: Dish)
    requires UniqueIds(rows) && 0 <= i < |rows| && row.id == rows[i].id
    ensures UniqueIds(rows[i := row])
    ensures Observe(rows[i := row], row.id) == Some(row)
    ensures forall j :: j != row.id ==> Observe(rows[i := row], j) == Observe(rows, j)
  {
    var after := rows[i := row];
    assert forall a :: 0 <= a < |rows| ==> after[a].id == rows[a].id;
    ObserveRow(after, i);
    forall j | j != row.id ensures Observe(after, j) == Observe(rows, j) {
      if Observe(rows, j).Some? {
        var v := Observe(rows, j).value;
        var a :| 0 <= a < |rows| && rows[a] == v;
        assert after[a] == v;
        ObserveRow(after, a);
      } else {
        assert forall a :: 0 <= a < |after| ==> after[a].id != j;
      }
    }
  }

  /** Appending a row under a new id makes that id look it up and changes nothing else. */
  lemma {:induction false} AppendRow(rows: seq<Dish>, row: Dish)
    requires UniqueIds(rows) && Observe(rows, row.id).None?
    ensures UniqueIds(rows + [row])
    ensures Observe(rows + [row], row.id) == Some(row)
    ensures forall j :: j != row.id ==> Observe(rows + [row], j) == Observe(rows, j)
  {
    var after := rows + [row];
    assert forall a :: 0 <= a < |rows| ==> after[a] == rows[a];
    ObserveRow(after, |rows|);
    forall j | j != row.id ensures Observe(after, j) == Observe(rows, j) {
      if Observe(rows, j).Some? {
        var v := Observe(rows, j).value;
        var a :| 0 <= a < |rows| && rows[a] == v;
        ObserveRow(after, a);
      } else {
        assert forall a :: 0 <= a < |after| ==> after[a].id != j;
      }
    }
  }

  /** Removing the row that holds an id makes that id look up nothing and changes nothing else. */
  lemma {:induction false} RemoveRow(rows: seq<Dish>, id: int)
    requires UniqueIds(rows)
    ensures Observe(WithoutId(rows, id), id).None?
    ensures forall j :: j != id ==> Observe(WithoutId(rows, id), j) == Observe(rows, j)
  {
    var after := WithoutId(rows, id);
    WithoutIdUnique(rows, id);
    forall j | j != id ensures Observe(after, j) == Observe(rows, j) {
      if Observe(rows, j).Some? {
        var v := Observe(rows, j).value;
        var a :| 0 <= a < |after| && after[a] == v;
        ObserveRow(after, a);
      } else {
        assert forall a :: 0 <= a < |after| ==> after[a] in rows;
      }
    }
  }

  /** Every stored id is nonzero and at most the AUTOINCREMENT counter `hi`. */
  predicate IdsWithin(rows: seq<Dish>, hi: int) {
    forall i :: 0 <= i < |rows| ==> rows[i].id != 0 && rows[i].id <= hi
  }

  lemma IdsWithinStore(rows: seq<Dish>, lo: int, hi: int, i: int, row: Dish)
    requires IdsWithin(rows, lo) && lo <= hi && row.id != 0 && row.id <= hi
    ensures 0 <= i < |rows| ==> IdsWithin(rows[i := row], hi)
    ensures IdsWithin(rows + [row], hi)
  {
  }

  /**
   * The DAO over one table. `rows` holds the records in insertion order; `lastId` is SQLite's
   * AUTOINCREMENT counter, the largest id the table has ever held.
   */
  class DishDao {
    var rows: seq<Dish>
    var lastId: int

    ghost predicate Valid()
      reads this
    {
      UniqueIds(rows) && 0 <= lastId && IdsWithin(rows, lastId)
    }

    /** An empty database. */
    constructor ()
      ensures Valid() && rows == [] && lastId == 0
    {
      rows := [];
      lastId := 0;
    }

    /**
     * `@Insert(onConflict = REPLACE) upsert`: id 0 is bound as NULL, so the row gets the next
     * AUTOINCREMENT id; any other id replaces the row holding it, or adds one.
     */
    method Upsert(d: Dish) returns (k: int)
      requires Valid()
      modifies this
      ensures Valid()
      ensures d.id == 0 ==> k == old(lastId) + 1 && Observe(old(rows), k).None?
      ensures d.id != 0 ==> k == d.id
      ensures Observe(rows, k) == Some(d.(id := k))
      ensures forall j :: j != k ==> Observe(rows, j) == Observe(old(rows), j)
      ensures |rows| == if Observe(old(rows), k).Some? then |old(rows)| else |old(rows)| + 1
      ensures lastId == if k > old(lastId) then k else old(lastId)
    {
      k := if d.id == 0 then lastId + 1 else d.id;
      var row := d.(id := k);
      var newLast := if k > lastId then k else lastId;
      var found := Observe(rows, k);
      if found.Some? {
        var i :| 0 <= i < |rows| && rows[i] == found.value;
        ReplaceRow(rows, i, row);
        IdsWithinStore(rows, lastId, newLast, i, row);
        rows := rows[i := row];
      } else {
        AppendRow(rows, row);
        IdsWithinStore(rows, lastId, newLast, 0, row);
        rows := rows + [row];
      }
      lastId := newLast;
    }

    /** `@Delete delete`: removes the row whose id is `d.id`; the other fields of `d` play no part. */
    method Delete(d: Dish)
      requires Valid()
      modifies this
      ensures Valid()
      ensures Observe(rows, d.id).None?
      ensures forall j :: j != d.id ==> Observe(rows, j) == Observe(old(rows), j)
      ensures |rows| == if Observe(old(rows), d.id).Some? then |old(rows)| - 1 else |old(rows)|
      ensures lastId == old(lastId)
    {
      RemoveRow(rows, d.id);
      WithoutIdUnique(rows, d.id);
      rows := WithoutId(rows, d.id);
    }
  }

  /** Of two rows, the newer comes first by date. */
  lemma RecentOfTwo(rows: seq<Dish>, a: Dish, b: Dish)
    requires rows == [a, b] || rows == [b, a]
    requires a.dateCooked < b.dateCooked
    ensures Recent(rows, 1) == [b]
  {
    assert Insert(DateDesc, b, []) == [b] && Insert(DateDesc, a, []) == [a];
    assert SortBy(DateDesc, [a]) == [a] && SortBy(DateDesc, [b]) == [b];
    assert SortBy(DateDesc, rows) == [b, a];
  }

  /** Of two rows rated 5 and 3, the one rated 5 comes first by rating. */
  lemma TopOfTwo(rows: seq<Dish>, a: Dish, b: Dish)
    requires rows == [a, b] || rows == [b, a]
    requires a.rating == Some(5) && b.rating == Some(3)
    ensures Top(rows, 1) == [a]
  {
    var o := RatingThenDateDesc;
    assert Insert(o, b, []) == [b] && Insert(o, a, []) == [a];
    assert SortBy(o, [a]) == [a] && SortBy(o, [b]) == [b];
    assert SortBy(o, rows) == [a, b];
  }

  /**
   * Two dishes saved into an empty table: "Tacos" rated 5, then "Soup" rated 3 and cooked later.
   * The newest dish is the soup and the best-rated one the tacos.
   */
  method TacosThenSoup(t1: int, t2: int) returns (recent: seq<Dish>, top: seq<Dish>)
    requires t1 < t2
    ensures |recent| == 1 && recent[0].dishName == "Soup" && recent[0].id == 2
    ensures |top| == 1 && top[0].dishName == "Tacos" && top[0].id == 1
  {
    var dao := new DishDao();
    var tacos := NewDish("Tacos", "", "", t1).(kcal := Some(550), cookMinutes := Some(20), rating := Some(5));
    var soup := NewDish("Soup", "", "", t2).(rating := Some(3));
    var k1 := dao.Upsert(tacos);
    var k2 := dao.Upsert(soup);
    var a, b := tacos.(id := 1), soup.(id := 2);
    assert Observe(dao.rows, 1) == Some(a) && Observe(dao.rows, 2) == Some(b);
    assert dao.rows == [a, b] || dao.rows == [b, a];
    RecentOfTwo(dao.rows, a, b);
    TopOfTwo(dao.rows, a, b);
    recent := Recent(dao.rows, 1);
    top := Top(dao.rows, 1);
  }
}
