/** The five-symbol rating control: which symbols are lit, and what tapping one reports. */
module BoltRating {
  import opened Wrappers
  import opened Text
  import RecipeCard
  import opened Dishes

  const Filled := "\U{26A1}"
  const Unfilled := "\U{26AA}"
  const Size := 5

  /** One symbol of the row: its glyph and the value its click handler passes to `onSet`. */
  datatype Symbol = Symbol(glyph: string, tapValue: int)

  predicate IsLit(s: Symbol) {
    s.glyph == Filled
  }

  /** The symbols for `n` up to 5, lit while `(current ?: 0) >= n`. */
  function SymbolsFrom(c: int, n: nat): (r: seq<Symbol>)
    requires 1 <= n <= Size + 1
    ensures |r| == Size + 1 - n
    ensures forall i :: 0 <= i < |r| ==> r[i].tapValue == n + i && (IsLit(r[i]) <==> c >= n + i)
    ensures forall i :: 0 <= i < |r| ==> r[i].glyph == Filled || r[i].glyph == Unfilled
    decreases Size + 1 - n
  {
    if n > Size then []
    else [Symbol(if c >= n then Filled else Unfilled, n)] + SymbolsFrom(c, n + 1)
  }

  /** `(1..5).forEach { n -> ... }` for the given `current`. */
  function Row(current: Option<Int32>): (r: seq<Symbol>)
    ensures |r| == Size
    ensures forall i :: 0 <= i < Size ==> r[i].tapValue == i + 1
    ensures forall i :: 0 <= i < Size ==> (IsLit(r[i]) <==> current.GetOr(0) >= i + 1)
  {
    SymbolsFrom(current.GetOr(0), 1)
  }

  function LitCount(r: seq<Symbol>): nat {
    if r == [] then 0 else LitCount(r[..|r| - 1]) + if IsLit(r[|r| - 1]) then 1 else 0
  }

  function Clamp(x: int, lo: int, hi: int): int
    requires lo <= hi
  {
    if x < lo then lo else if x > hi then hi else x
  }

  /** A row lit exactly on its first `k` symbols has `k` lit symbols. */
  lemma {:induction false} LitPrefixCount(r: seq<Symbol>, k: int)
    requires 0 <= k <= |r|
    requires forall i :: 0 <= i < |r| ==> (IsLit(r[i]) <==> i < k)
    ensures LitCount(r) == k
  {
    if r != [] {
      var init := r[..|r| - 1];
      if k == |r| {
        LitPrefixCount(init, k - 1);
      } else {
        LitPrefixCount(init, k);
      }
    }
  }

  /** The lit symbols are a prefix of the row, and there are `clamp(current ?: 0, 0, 5)` of them. */
  lemma LitPrefix(current: Option<Int32>)
    ensures var r := Row(current);
      && (forall i, j :: 0 <= i < j < Size && IsLit(r[j]) ==> IsLit(r[i]))
      && LitCount(r) == Clamp(current.GetOr(0), 0, Size)
  {
    var r := Row(current);
    var k := Clamp(current.GetOr(0), 0, Size);
    assert forall i :: 0 <= i < Size ==> (IsLit(r[i]) <==> i < k);
    LitPrefixCount(r, k);
  }

  /** Tapping a symbol reports its position, 1 to 5, and the row then lights exactly that many. */
  lemma TapSetsRating(current: Option<Int32>, i: int)
    requires 0 <= i < Size
    ensures 1 <= Row(current)[i].tapValue <= Size
    ensures LitCount(Row(Some(Row(current)[i].tapValue))) == i + 1
  {
    LitPrefix(Some(i + 1));
  }

  /** For a rating from 0 to 5 the card draws as many bolts as this row lights. */
  lemma CardAgreesWithRow(d: Dish)
    requires d.rating.None? || 0 <= d.rating.value <= Size
    ensures RecipeCard.BoltCount(d) == LitCount(Row(d.rating))
  {
    LitPrefix(d.rating);
  }
}
