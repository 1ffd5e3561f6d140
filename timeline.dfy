/** The auto-scrolling timeline rows: the index each tick scrolls to, and the labels of a timeline card. */
module Timeline {
  import opened Wrappers
  import opened Text
  import opened Dishes
  import opened RecipeCard

  datatype Direction = LeftToRight | RightToLeft

  /** `items.lastIndex.coerceAtLeast(0)`: the largest index of a non-empty row, 0 for an empty one. */
  function LastIndex(count: nat): (last: nat)
    ensures count > 0 ==> last < count <= last + 1
    ensures count == 0 ==> last == 0
  {
    if count == 0 then 0 else count - 1
  }

  /** The index one tick scrolls to from the first visible index `current`. */
  function NextIndex(dir: Direction, current: nat, last: nat): (next: nat)
    ensures current <= last ==> next <= last
    ensures last == 0 && current == 0 ==> next == 0
  {
    match dir
    case RightToLeft => if current >= last then 0 else current + 1
    case LeftToRight => if current <= 0 then last else current - 1
  }

  /** Where the row is after `k` ticks from `start`. */
  function Position(dir: Direction, start: nat, last: nat, k: nat): nat {
    if k == 0 then start else NextIndex(dir, Position(dir, start, last, k - 1), last)
  }

  lemma {:induction false} PositionInRange(dir: Direction, start: nat, last: nat, k: nat)
    requires start <= last
    ensures Position(dir, start, last, k) <= last
  {
    if k > 0 {
      PositionInRange(dir, start, last, k - 1);
    }
  }

  /** `j` ticks after `i` ticks is `i + j` ticks. */
  lemma {:induction false} PositionAdd(dir: Direction, start: nat, last: nat, i: nat, j: nat)
    ensures Position(dir, Position(dir, start, last, i), last, j) == Position(dir, start, last, i + j)
  {
    if j > 0 {
      PositionAdd(dir, start, last, i, j - 1);
    }
  }

  /** Right to left, the row moves one item on per tick until the last item. */
  lemma {:induction false} RightToLeftAdvances(start: nat, last: nat, k: nat)
    requires start + k <= last
    ensures Position(RightToLeft, start, last, k) == start + k
  {
    if k > 0 {
      RightToLeftAdvances(start, last, k - 1);
    }
  }

  /** Left to right, the row moves one item back per tick until the first item. */
  lemma {:induction false} LeftToRightRetreats(start: nat, last: nat, k: nat)
    requires k <= start
    ensures Position(LeftToRight, start, last, k) == start - k
  {
    if k > 0 {
      LeftToRightRetreats(start, last, k - 1);
    }
  }

  /** In either direction the row visits every item and is back where it started after one tick per item. */
  lemma FullCycleReturns(dir: Direction, start: nat, last: nat)
    requires start <= last
    ensures Position(dir, start, last, last + 1) == start
  {
    if dir == RightToLeft {
      RightToLeftAdvances(start, last, last - start);
      assert Position(RightToLeft, start, last, last - start + 1) == 0;
      RightToLeftAdvances(0, last, start);
      PositionAdd(RightToLeft, start, last, last - start + 1, start);
    } else {
      LeftToRightRetreats(start, last, start);
      assert Position(LeftToRight, start, last, start + 1) == last;
      LeftToRightRetreats(last, last, last - start);
      PositionAdd(LeftToRight, start, last, start + 1, last - start);
    }
  }

  /**
   * Right to left, a first visible index beyond the last item (a row that has lost items) is
   * back in range after the first tick, and stays there.
   */
  lemma RightToLeftBackInRange(start: nat, last: nat, k: nat)
    requires k > 0
    ensures Position(RightToLeft, start, last, k) <= last
  {
    var first := Position(RightToLeft, start, last, 1);
    assert first <= last;
    PositionAdd(RightToLeft, start, last, 1, k - 1);
    PositionInRange(RightToLeft, first, last, k - 1);
  }

  /**
   * The `LaunchedEffect` of `AutoScrollingRow`, run for `ticks` ticks: the indices the row shows,
   * first the one it starts at. A left-to-right row first jumps to the last item; a right-to-left
   * row starts where its list state already is, `resumeAt` (0 for a fresh state, the retained
   * `firstVisibleItemIndex` when a change of `items` restarts the effect). An empty row never
   * scrolls. The item scrolled to is taken to become the first visible one.
   */
  method AutoScroll(count: nat, dir: Direction, resumeAt: nat, ticks: nat) returns (visited: seq<nat>)
    ensures count == 0 ==> visited == []
    ensures count > 0 ==> |visited| == ticks + 1
    ensures count > 0 ==> visited[0] == if dir == LeftToRight then count - 1 else resumeAt
    ensures forall k :: 0 < k < |visited| ==> visited[k] < count
    ensures forall k :: 0 < k < |visited| ==> visited[k] == NextIndex(dir, visited[k - 1], LastIndex(count))
    ensures forall k :: 0 <= k < |visited| ==> visited[k] == Position(dir, visited[0], LastIndex(count), k)
  {
    if count == 0 {
      return [];
    }
    var last := LastIndex(count);
    var start := if dir == LeftToRight then last else resumeAt;
    var current := start;
    visited := [current];
    var t := 0;
    while t < ticks
      invariant 0 <= t <= ticks && |visited| == t + 1
      invariant current == visited[t]
      invariant forall k :: 0 <= k < |visited| ==> visited[k] == Position(dir, start, last, k)
    {
      assert Position(dir, start, last, t + 1) == NextIndex(dir, Position(dir, start, last, t), last);
      current := NextIndex(dir, current, last);
      visited := visited + [current];
      t := t + 1;
    }
    forall k | 0 < k < |visited| ensures visited[k] <= last {
      if dir == RightToLeft {
        RightToLeftBackInRange(start, last, k);
      } else {
        PositionInRange(dir, start, last, k);
      }
    }
    forall k | 0 < k < |visited| ensures visited[k] == NextIndex(dir, visited[k - 1], last) {
      assert visited[k] == Position(dir, start, last, k);
      assert visited[k - 1] == Position(dir, start, last, k - 1);
    }
  }

  /** A single-item row always shows item 0. */
  lemma SingleItemStaysPut(dir: Direction, k: nat)
    ensures Position(dir, 0, 0, k) == 0
  {
    PositionInRange(dir, 0, 0, k);
  }

  /**
   * The card's minutes label: minutes only, with no hour split. Its kcal label is the home
   * card's `KcalPill`.
   */
  function CardMinutes(d: Dish): string {
    if d.cookMinutes.Some? then Quantity(d.cookMinutes.value, "mins") else Dash + " mins"
  }

  /** The timeline card and the home card show the same time exactly when there is none or it is under an hour. */
  lemma CardMinutesMatchPill(d: Dish)
    ensures CardMinutes(d) == TimePill(d) <==> d.cookMinutes.None? || d.cookMinutes.value < 60
  {
    if d.cookMinutes.Some? && d.cookMinutes.value >= 60 {
      var m := d.cookMinutes.value;
      SplitQuantity(m, "mins");
      SplitHours(m);
      assert |Split(CardMinutes(d), ' ')| != |Split(TimePill(d), ' ')|;
    }
  }

  /** The timeline's minutes label reads back as the stored minutes, whatever their size. */
  lemma CardMinutesReadBack(d: Dish)
    ensures ReadQuantity(CardMinutes(d), "mins") == if d.cookMinutes.Some? then Some(d.cookMinutes.value as int) else None
  {
    if d.cookMinutes.Some? {
      SplitQuantity(d.cookMinutes.value, "mins");
      ParseIntToString(d.cookMinutes.value);
    } else {
      SplitAfterPiece(Dash, ' ', "mins");
      SplitWithoutSeparator("mins", ' ');
      assert CardMinutes(d) == Dash + [' '] + "mins";
      assert ParseInt(Dash) == None;
    }
  }
}
