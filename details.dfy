/** The dish details screen: stat labels, the subtitle, the ingredient list, tab fallbacks and the share text. */
module Details {
  import opened Wrappers
  import opened Text
  import opened Dishes
  import opened Sequences
  import opened RecipeCard

  const NoInstructions := "No instructions added yet."
  const NoNotes := "No notes added yet."

  /** `"${d.kcal ?: 0} Kcal"`. */
  function KcalLabel(d: Dish): string {
    Quantity(d.kcal.GetOr(0), "Kcal")
  }

  /** The cook-time stat: the card's hour split, with a missing time shown as 0. */
  function CookTimeLabel(d: Dish): string {
    MinutesText(d.cookMinutes.GetOr(0))
  }

  /** The kcal stat reads back as the dish's kcal, 0 when it has none. */
  lemma KcalLabelReadsBack(d: Dish)
    ensures ReadQuantity(KcalLabel(d), "Kcal") == Some(d.kcal.GetOr(0) as int)
  {
    SplitQuantity(d.kcal.GetOr(0), "Kcal");
    ParseIntToString(d.kcal.GetOr(0));
  }

  /** The cook-time stat reads back as the dish's minutes, 0 when it has none. */
  lemma CookTimeLabelReadsBack(d: Dish)
    ensures ReadMinutes(CookTimeLabel(d)) == Some(d.cookMinutes.GetOr(0) as int)
  {
    MinutesTextReadsBack(d.cookMinutes.GetOr(0));
  }

  /** The stat and the card pill agree whenever the dish has a cook time; without one they differ. */
  lemma CookTimeMatchesCard(d: Dish)
    ensures d.cookMinutes.Some? ==> CookTimeLabel(d) == TimePill(d)
    ensures d.cookMinutes.None? ==> CookTimeLabel(d) == "0 mins" != TimePill(d)
  {
    if d.cookMinutes.None? {
      assert TimePill(d)[0] == Dash[0] != '0';
    }
  }

  /** `listOfNotNull(d.mealType, d.cuisine)`. */
  function Tags(d: Dish): (r: seq<string>)
    ensures |r| == (if d.mealType.Some? then 1 else 0) + (if d.cuisine.Some? then 1 else 0)
    ensures d.mealType.Some? ==> r[0] == d.mealType.value
    ensures d.cuisine.Some? ==> r[|r| - 1] == d.cuisine.value
  {
    (if d.mealType.Some? then [d.mealType.value] else []) + (if d.cuisine.Some? then [d.cuisine.value] else [])
  }

  function Subtitle(d: Dish): string {
    Join(Tags(d), " | ")
  }

  /** The subtitle line is drawn only when it is not blank. */
  predicate SubtitleShown(d: Dish) {
    !IsBlank(Subtitle(d))
  }

  /** It is drawn exactly when both tags are present, or one present tag is not blank. */
  lemma SubtitleShownWhen(d: Dish)
    ensures SubtitleShown(d) <==>
      || (d.mealType.Some? && d.cuisine.Some?)
      || (d.mealType.Some? && !IsBlank(d.mealType.value))
      || (d.cuisine.Some? && !IsBlank(d.cuisine.value))
  {
    if d.mealType.Some? && d.cuisine.Some? {
      var s := Subtitle(d);
      var tags := Tags(d);
      assert tags == [d.mealType.value, d.cuisine.value] && tags[1..] == [d.cuisine.value];
      assert Join(tags[1..], " | ") == d.cuisine.value;
      assert s == d.mealType.value + " | " + d.cuisine.value;
      assert s[|d.mealType.value| + 1] == '|';
    }
  }

  /** Each piece, trimmed. */
  function TrimAll(ps: seq<string>): (r: seq<string>)
    ensures |r| == |ps| && forall k :: 0 <= k < |ps| ==> r[k] == Trim(ps[k])
  {
    if ps == [] then [] else [Trim(ps[0])] + TrimAll(ps[1..])
  }

  /** `map { it.trim() }.filter { it.isNotEmpty() }` over the pieces. */
  function Items(ps: seq<string>): (r: seq<string>)
    ensures |r| <= |ps|
    ensures forall k :: 0 <= k < |r| ==> r[k] != [] && !IsSpace(r[k][0]) && !IsSpace(r[k][|r[k]| - 1])
  {
    if ps == [] then []
    else
      var t := Trim(ps[0]);
      if t == [] then Items(ps[1..]) else [t] + Items(ps[1..])
  }

  /** The items are the non-empty trimmed pieces, in order, each as often as it occurs. */
  lemma {:induction false} ItemsSelect(ps: seq<string>)
    ensures Subsequence(Items(ps), TrimAll(ps))
    ensures forall x :: x != [] ==> multiset(Items(ps))[x] == multiset(TrimAll(ps))[x]
  {
    if ps != [] {
      ItemsSelect(ps[1..]);
      var t := Trim(ps[0]);
      var rest := Items(ps[1..]);
      assert TrimAll(ps) == [t] + TrimAll(ps[1..]);
      if t == [] {
        assert Items(ps) == rest;
        if rest != [] {
          assert rest[0] != [];
        }
      } else {
        assert Items(ps) == [t] + rest;
        assert ([t] + rest)[1..] == rest;
      }
    }
  }

  /** The ingredient list: the text split at line breaks, each line trimmed, empty lines dropped. */
  function IngredientItems(raw: string): (r: seq<string>)
    ensures |r| <= Count(raw, '\n') + 1
    ensures forall k :: 0 <= k < |r| ==> r[k] != [] && !IsSpace(r[k][0]) && !IsSpace(r[k][|r[k]| - 1])
    ensures Subsequence(r, TrimAll(Split(raw, '\n')))
    ensures forall x :: x != [] ==> multiset(r)[x] == multiset(TrimAll(Split(raw, '\n')))[x]
  {
    ItemsSelect(Split(raw, '\n'));
    Items(Split(raw, '\n'))
  }

  /** Ingredients written one trimmed line each, each line ended by a break, list back as written. */
  lemma {:induction false} ItemsOfLines(xs: seq<string>)
    requires forall k :: 0 <= k < |xs| ==> xs[k] != [] && Trim(xs[k]) == xs[k] && '\n' !in xs[k]
    ensures IngredientItems(Lines(xs)) == xs
  {
    SplitLines(xs);
    ItemsDropLastEmpty(xs);
  }

  lemma {:induction false} ItemsDropLastEmpty(xs: seq<string>)
    requires forall k :: 0 <= k < |xs| ==> xs[k] != [] && Trim(xs[k]) == xs[k]
    ensures Items(xs + [""]) == xs
  {
    if xs == [] {
      assert Trim("") == [];
    } else {
      assert (xs + [""])[1..] == xs[1..] + [""];
      ItemsDropLastEmpty(xs[1..]);
      assert [xs[0]] + xs[1..] == xs;
    }
  }

  /** `raw.ifBlank { ... }`: the Instructions tab never shows a blank text. */
  function InstructionsText(raw: string): (r: string)
    ensures !IsBlank(r)
    ensures !IsBlank(raw) ==> r == raw
    ensures IsBlank(raw) ==> r == NoInstructions
  {
    if IsBlank(raw) then
      assert NoInstructions[0] == 'N';
      NoInstructions
    else raw
  }

  /** `raw?.takeIf { it.isNotBlank() } ?: ...`: the Notes tab never shows a blank text. */
  function NotesText(raw: Option<string>): (r: string)
    ensures !IsBlank(r)
    ensures raw.Some? && !IsBlank(raw.value) ==> r == raw.value
    ensures raw.None? || IsBlank(raw.value) ==> r == NoNotes
  {
    if raw.Some? && !IsBlank(raw.value) then raw.value
    else
      assert NoNotes[0] == 'N';
      NoNotes
  }

  /** The lines the share text is built from, in order. */
  function ShareLines(d: Dish): seq<string> {
    [d.dishName] + (if d.sourceLink.Some? then [d.sourceLink.value] else [])
      + ["", "Ingredients:", d.ingredients, "", "Instructions:", d.steps]
  }

  /** The `buildString` of the Share button: every line passed to `appendLine`, each ending in a break. */
  function ShareText(d: Dish): (s: string)
    ensures s != [] && s[|s| - 1] == '\n'
  {
    LinesEndInBreak(ShareLines(d));
    Lines(ShareLines(d))
  }

  lemma {:induction false} LinesEndInBreak(xs: seq<string>)
    requires xs != []
    ensures Lines(xs) != [] && Lines(xs)[|Lines(xs)| - 1] == '\n'
  {
    if |xs| > 1 {
      LinesEndInBreak(xs[1..]);
    }
  }

  /**
   * The share text read line by line: the pieces of the name, of the link when there is one, a
   * blank line and "Ingredients:", the pieces of the ingredients, a blank line and "Instructions:",
   * the pieces of the steps, and the empty piece after the final break. A field with line breaks of
   * its own, such as ingredients typed one per line, contributes each of its lines.
   */
  lemma ShareTextLines(d: Dish)
    ensures Split(ShareText(d), '\n') ==
      Split(d.dishName, '\n') + ((if d.sourceLink.Some? then Split(d.sourceLink.value, '\n') else [])
      + (["", "Ingredients:"] + Split(d.ingredients, '\n') + ["", "Instructions:"] + Split(d.steps, '\n')))
      + [""]
  {
    SplitLinesAll(ShareLines(d));
    ShareLinePieces(d);
    LinkPieces(d.sourceLink);
  }

  /** The pieces of the share text's lines, with the link's still to be split. */
  lemma ShareLinePieces(d: Dish)
    ensures SplitAll(ShareLines(d), '\n') ==
      Split(d.dishName, '\n') + (SplitAll(if d.sourceLink.Some? then [d.sourceLink.value] else [], '\n')
      + (["", "Ingredients:"] + Split(d.ingredients, '\n') + ["", "Instructions:"] + Split(d.steps, '\n')))
  {
    var link := if d.sourceLink.Some? then [d.sourceLink.value] else [];
    assert ShareLines(d) == [d.dishName] + (link + ["", "Ingredients:", d.ingredients, "", "Instructions:", d.steps]);
    LinesAfterName(d.dishName, link, "Ingredients:", d.ingredients, "Instructions:", d.steps);
  }

  lemma LinesAfterName(name: string, link: seq<string>, h1: string, ingredients: string, h2: string, steps: string)
    requires '\n' !in h1 && '\n' !in h2
    ensures SplitAll([name] + (link + ["", h1, ingredients, "", h2, steps]), '\n') ==
      Split(name, '\n') + (SplitAll(link, '\n')
      + (["", h1] + Split(ingredients, '\n') + ["", h2] + Split(steps, '\n')))
  {
    var tail := ["", h1, ingredients, "", h2, steps];
    SplitAllCons(name, link + tail, '\n');
    SplitAllConcat(link, tail, '\n');
    ShareTailPieces(h1, ingredients, h2, steps);
  }

  /**
   * The pieces of the share text's lines from the first blank line on, for headings `h1` and `h2`
   * without a break inside them.
   */
  lemma ShareTailPieces(h1: string, ingredients: string, h2: string, steps: string)
    requires '\n' !in h1 && '\n' !in h2
    ensures SplitAll(["", h1, ingredients, "", h2, steps], '\n') ==
      ["", h1] + Split(ingredients, '\n') + ["", h2] + Split(steps, '\n')
  {
    assert ["", h1, ingredients, "", h2, steps] == ["", h1, ingredients] + ["", h2, steps];
    SplitAllConcat(["", h1, ingredients], ["", h2, steps], '\n');
    HeadedBlock(h1, ingredients);
    HeadedBlock(h2, steps);
  }

  /** A blank line, a heading and a body split into the blank line, the heading and the body's pieces. */
  lemma HeadedBlock(h: string, body: string)
    requires '\n' !in h
    ensures SplitAll(["", h, body], '\n') == ["", h] + Split(body, '\n')
  {
    SplitAll3("", h, body, '\n');
    SplitWithoutSeparator(h, '\n');
    assert Split("", '\n') == [""];
  }

  /** The link contributes its pieces when present, and nothing otherwise. */
  lemma LinkPieces(link: Option<string>)
    ensures SplitAll(if link.Some? then [link.value] else [], '\n') ==
      if link.Some? then Split(link.value, '\n') else []
  {
    if link.Some? {
      SplitAllCons(link.value, [], '\n');
      assert [link.value] + [] == [link.value];
    }
  }

  /** For fields without line breaks of their own, the share text splits back into its lines. */
  lemma ShareTextSingleLines(d: Dish)
    requires '\n' !in d.dishName && '\n' !in d.ingredients && '\n' !in d.steps
    requires d.sourceLink.Some? ==> '\n' !in d.sourceLink.value
    ensures Split(ShareText(d), '\n') == ShareLines(d) + [""]
  {
    var xs := ShareLines(d);
    var tail := ["", "Ingredients:", d.ingredients, "", "Instructions:", d.steps];
    assert forall k :: 0 <= k < |tail| ==> '\n' !in tail[k];
    if d.sourceLink.Some? {
      assert xs == [d.dishName, d.sourceLink.value] + tail;
    } else {
      assert xs == [d.dishName] + tail;
    }
    SplitLines(xs);
  }
}
