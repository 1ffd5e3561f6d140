/**
 * The home screen's view model: the three timeline queries with their fixed arguments, and the
 * search filter over the full dish list.
 */
module Home {
  import opened Wrappers
  import opened Text
  import opened Dishes
  import opened DishStore
  import opened Sequences

  const ListLimit := 10
  const ForgottenMinRating := 4
  /** Sixty days in milliseconds. */
  const ForgottenWindowMs := 60 * 24 * 60 * 60 * 1000

  /** `repo.recent(10)`: the ten most recently cooked dishes, newest first. */
  function HomeRecent(rows: seq<Dish>): (r: seq<Dish>)
    ensures |r| == if |rows| < 10 then |rows| else 10
    ensures multiset(r) <= multiset(rows)
    ensures forall i, j :: 0 <= i < j < |r| ==> r[i].dateCooked >= r[j].dateCooked
    ensures forall x, y :: x in r && y in rows && y !in r ==> y.dateCooked <= x.dateCooked
  {
    Recent(rows, ListLimit)
  }

  /** `repo.top(10)`: the ten best-rated dishes, unrated ones last. */
  function HomeTop(rows: seq<Dish>): (r: seq<Dish>)
    ensures |r| == if |rows| < 10 then |rows| else 10
    ensures multiset(r) <= multiset(rows)
    ensures forall i, j :: 0 <= i < j < |r| && r[j].rating.Some? ==>
      r[i].rating.Some? && r[i].rating.value >= r[j].rating.value
    ensures forall i, j :: 0 <= i < j < |r| && r[i].rating == r[j].rating ==>
      r[i].dateCooked >= r[j].dateCooked
    ensures forall x, y :: x in r && y in rows && y !in r ==> InOrder(RatingThenDateDesc, x, y)
  {
    Top(rows, ListLimit)
  }

  /** `repo.forgotten(4, now - 60 days, 10)`: up to ten dishes rated 4 or more, last cooked 60 days ago or earlier. */
  function HomeForgotten(rows: seq<Dish>, now: int): (r: seq<Dish>)
    ensures |r| <= 10
    ensures multiset(r) <= multiset(rows)
    ensures forall x :: x in r ==> x.rating.Some? && x.rating.value >= 4 && x.dateCooked <= now - 5_184_000_000
    ensures forall i, j :: 0 <= i < j < |r| ==> r[i].dateCooked <= r[j].dateCooked
    ensures forall y ::
      y in rows && y !in r && y.rating.Some? && y.rating.value >= 4 && y.dateCooked <= now - 5_184_000_000 ==>
        |r| == 10 && forall x :: x in r ==> x.dateCooked <= y.dateCooked
  {
    Forgotten(rows, ForgottenMinRating, now - ForgottenWindowMs, ListLimit)
  }

  /** The trimmed query `t` occurs, ignoring case, in the name, the cuisine or the meal type (null as ""). */
  predicate Matches(d: Dish, t: string) {
    || ContainsIgnoreCase(d.dishName, t)
    || ContainsIgnoreCase(d.cuisine.GetOr(""), t)
    || ContainsIgnoreCase(d.mealType.GetOr(""), t)
  }

  /** `list.filter { matches }`: every matching dish as often as in `list`, in order, and nothing else. */
  function FilterBy(list: seq<Dish>, t: string): (r: seq<Dish>)
    ensures Subsequence(r, list)
    ensures forall x :: x in r ==> Matches(x, t)
    ensures forall x :: Matches(x, t) ==> multiset(r)[x] == multiset(list)[x]
  {
    if list == [] then []
    else
      var rest := FilterBy(list[1..], t);
      assert list == [list[0]] + list[1..];
      if Matches(list[0], t) then [list[0]] + rest else rest
  }

  /** The `filtered` flow for one list and one query. */
  function Filtered(list: seq<Dish>, query: string): (r: seq<Dish>)
    ensures IsBlank(query) ==> r == list
    ensures !IsBlank(query) ==> r == FilterBy(list, Trim(query))
  {
    var t := Trim(query);
    if IsBlank(t) then list else FilterBy(list, t)
  }

  /** Filtering a list already filtered by the same query changes nothing. */
  lemma {:induction false} FilterByIdempotent(list: seq<Dish>, t: string)
    ensures FilterBy(FilterBy(list, t), t) == FilterBy(list, t)
  {
    if list != [] {
      FilterByIdempotent(list[1..], t);
      var rest := FilterBy(list[1..], t);
      if Matches(list[0], t) {
        assert ([list[0]] + rest)[1..] == rest;
      }
    }
  }

  lemma FilteredIdempotent(list: seq<Dish>, query: string)
    ensures Filtered(Filtered(list, query), query) == Filtered(list, query)
  {
    if !IsBlank(query) {
      FilterByIdempotent(list, Trim(query));
    }
  }

  /** A missing cuisine or meal type reads as "", which a non-blank query never occurs in. */
  lemma MissingTagsNeverMatch(d: Dish, query: string)
    requires !IsBlank(query) && d.cuisine.None? && d.mealType.None?
    ensures Matches(d, Trim(query)) <==> ContainsIgnoreCase(d.dishName, Trim(query))
  {
    EmptyContainsNothing(Trim(query));
  }

  class HomeVM {
    /** The latest emission of `repo.all()`. */
    var all: seq<Dish>
    /** The search text `q`. */
    var q: string

    constructor ()
      ensures all == [] && q == ""
    {
      all := [];
      q := "";
    }

    function Shown(): seq<Dish>
      reads this
    {
      Filtered(all, q)
    }

    /** `setQuery`: the query is replaced and the grid shows the list filtered by it. */
    method SetQuery(s: string)
      modifies this`q
      ensures q == s && Shown() == Filtered(all, s)
    {
      q := s;
    }

    /** The collector of `repo.all()`: the list becomes the table, newest first. */
    method Collect(dao: DishDao)
      modifies this`all
      ensures all == All(dao.rows)
      ensures multiset(all) == multiset(dao.rows)
    {
      all := All(dao.rows);
    }
  }
}
