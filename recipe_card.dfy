/** The home-grid card: the bolt row for the rating, the kcal pill and the cook-time pill. */
module RecipeCard {
  import opened Wrappers
  import opened Text
  import opened Dishes

  const BoltGlyph := "\U{26A1}"
  const Dash := "\U{2014}"

  /** `repeat(d.rating ?: 0)`: `repeat` draws nothing for a count of zero or below. */
  function BoltCount(d: Dish): (n: nat)
    ensures n == 0 || (d.rating.Some? && d.rating.value == n)
    ensures d.rating.Some? && d.rating.value >= 0 ==> n == d.rating.value
  {
    var r := d.rating.GetOr(0);
    if r > 0 then r else 0
  }

  /** The bolts the card draws, one glyph per unit of rating. */
  function Bolts(d: Dish): (r: seq<string>)
    ensures |r| == BoltCount(d)
    ensures forall i :: 0 <= i < |r| ==> r[i] == BoltGlyph
  {
    seq(BoltCount(d), _ => BoltGlyph)
  }

  /** A number followed by a unit word, as the string templates print it. */
  function Quantity(n: int, unit: string): string {
    IntToString(n) + " " + unit
  }

  /** `${it / 60} hr ${it % 60} mins` for a cook time of an hour or more, otherwise `$it mins`. */
  function MinutesText(m: int): string {
    if m < 60 then Quantity(m, "mins") else IntToString(m / 60) + " hr " + Quantity(m % 60, "mins")
  }

  function KcalPill(d: Dish): string {
    if d.kcal.Some? then Quantity(d.kcal.value, "kcal") else Dash + " kcal"
  }

  function TimePill(d: Dish): string {
    if d.cookMinutes.Some? then MinutesText(d.cookMinutes.value) else Dash + " mins"
  }

  /** Reads a label of the form "n unit" back: the number, or `None` when it is not one. */
  function ReadQuantity(s: string, unit: string): Option<int> {
    var p := Split(s, ' ');
    if |p| == 2 && p[1] == unit && ParseInt(p[0]).Some? then Some(ParseInt(p[0]).value) else None
  }

  /** Reads a cook-time label back: "m mins", or "h hr m mins" read as h * 60 + m. */
  function ReadMinutes(s: string): Option<int> {
    ReadMinutePieces(Split(s, ' '))
  }

  function ReadMinutePieces(p: seq<string>): Option<int> {
    if |p| == 2 && p[1] == "mins" && ParseInt(p[0]).Some? then Some(ParseInt(p[0]).value)
    else if |p| == 4 && p[1] == "hr" && p[3] == "mins" && ParseInt(p[0]).Some? && ParseInt(p[2]).Some? then
      Some(ParseInt(p[0]).value * 60 + ParseInt(p[2]).value)
    else None
  }

  lemma NoSpaceInNumber(n: int)
    ensures ' ' !in IntToString(n)
  {
    var s := IntToString(n);
    assert forall i :: 0 <= i < |s| ==> s[i] != ' ';
  }

  lemma {:induction false} SplitQuantity(n: int, unit: string)
    requires ' ' !in unit
    ensures Split(Quantity(n, unit), ' ') == [IntToString(n), unit]
  {
    NoSpaceInNumber(n);
    SplitAfterPiece(IntToString(n), ' ', unit);
    assert Quantity(n, unit) == IntToString(n) + [' '] + unit;
    assert Split(unit, ' ') == [unit] by {
      JoinSplit(unit, ' ');
      SplitWithoutSeparator(unit, ' ');
    }
  }

  lemma {:induction false} SplitWithoutSeparator(s: string, sep: char)
    requires sep !in s
    ensures Split(s, sep) == [s]
  {
    if s != [] {
      SplitWithoutSeparator(s[1..], sep);
      assert [s[0]] + s[1..] == s;
    }
  }

  lemma {:induction false} SplitHourText(hs: string, rest: string)
    requires ' ' !in hs
    ensures Split(hs + " hr " + rest, ' ') == [hs, "hr"] + Split(rest, ' ')
  {
    SplitAfterPiece("hr", ' ', rest);
    SplitAfterPiece(hs, ' ', "hr" + [' '] + rest);
    assert hs + " hr " + rest == hs + [' '] + ("hr" + [' '] + rest);
  }

  /** For an hour or more, the label splits into hours, "hr", minutes and "mins". */
  lemma SplitHours(m: int)
    requires m >= 60
    ensures Split(MinutesText(m), ' ') == [IntToString(m / 60), "hr", IntToString(m % 60), "mins"]
  {
    var hs := IntToString(m / 60);
    var rest := Quantity(m % 60, "mins");
    assert MinutesText(m) == hs + " hr " + rest;
    NoSpaceInNumber(m / 60);
    SplitQuantity(m % 60, "mins");
    SplitHourText(hs, rest);
  }

  /** The hour split of the label is exact: whole hours and a remainder below 60. */
  lemma HoursAndMinutes(m: int)
    requires m >= 60
    ensures m / 60 >= 1 && 0 <= m % 60 < 60 && m / 60 * 60 + m % 60 == m
    ensures MinutesText(m) == IntToString(m / 60) + " hr " + IntToString(m % 60) + " mins"
  {
  }

  /** The cook-time label reads back as the minutes it was printed from. */
  lemma MinutesTextReadsBack(m: Int32)
    ensures ReadMinutes(MinutesText(m)) == Some(m as int)
  {
    if m < 60 {
      SplitQuantity(m, "mins");
      ParseIntToString(m);
    } else {
      HoursReadBack(m);
    }
  }

  lemma {:induction false} HoursReadBack(m: Int32)
    requires m >= 60
    ensures ReadMinutes(MinutesText(m)) == Some(m as int)
  {
    var h: Int32 := m / 60;
    var mm: Int32 := m % 60;
    SplitHours(m);
    ParseIntToString(h);
    ParseIntToString(mm);
    HoursAndMinutes(m);
    ReadHourPieces(IntToString(h), IntToString(mm), h, mm);
  }

  lemma ReadHourPieces(hs: string, ms: string, h: int, mm: int)
    requires ParseInt(hs) == Some(h) && ParseInt(ms) == Some(mm)
    ensures ReadMinutePieces([hs, "hr", ms, "mins"]) == Some(h * 60 + mm)
  {
  }

  /** The kcal pill reads back as the dish's kcal, the dash as no value. */
  lemma {:induction false} KcalPillReadsBack(d: Dish)
    ensures ReadQuantity(KcalPill(d), "kcal") == if d.kcal.Some? then Some(d.kcal.value as int) else None
  {
    if d.kcal.Some? {
      SplitQuantity(d.kcal.value, "kcal");
      ParseIntToString(d.kcal.value);
    } else {
      SplitAfterPiece(Dash, ' ', "kcal");
      SplitWithoutSeparator("kcal", ' ');
      assert KcalPill(d) == Dash + [' '] + "kcal";
      assert ParseInt(Dash) == None;
    }
  }

  /** The time pill reads back as the dish's cook time, the dash as no value. */
  lemma {:induction false} TimePillReadsBack(d: Dish)
    ensures ReadMinutes(TimePill(d)) == if d.cookMinutes.Some? then Some(d.cookMinutes.value as int) else None
  {
    if d.cookMinutes.Some? {
      MinutesTextReadsBack(d.cookMinutes.value);
    } else {
      SplitAfterPiece(Dash, ' ', "mins");
      SplitWithoutSeparator("mins", ' ');
      assert TimePill(d) == Dash + [' '] + "mins";
      assert ParseInt(Dash) == None;
    }
  }
}
