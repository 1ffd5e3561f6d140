/** The add-dish form: its field state, the save-enabled rule and the `Dish` it saves. */
module AddDish {
  import opened Wrappers
  import opened Text
  import opened Dishes
  import opened DishStore

  /** Save is enabled only while the name field is not blank. */
  predicate SaveEnabled(name: string)
    ensures SaveEnabled(name) <==> Trim(name) != []
  {
    !IsBlank(name)
  }

  /**
   * `link.ifBlank { null }`: a stored link is the text exactly as typed and never blank, and a
   * link is stored exactly when the text keeps something once trimmed.
   */
  function LinkOrNone(link: string): (r: Option<string>)
    ensures r.Some? ==> r.value == link && !IsBlank(r.value)
    ensures r.Some? <==> Trim(link) != []
  {
    if IsBlank(link) then None else Some(link)
  }

  /**
   * The record the Save button builds from the form. `image` is the stored copy of the picked
   * image, `now` the construction time that becomes `dateCooked`.
   */
  function FormDish(name: string, kcal: string, mins: string, ingredients: string, steps: string,
                    link: string, image: Option<string>, rating: Option<Int32>, now: int): (d: Dish)
    ensures IsUnsaved(d) && d.dateCooked == now
    ensures d.dishName == Trim(name) && d.ingredients == Trim(ingredients) && d.steps == Trim(steps)
    ensures d.kcal == ParseInt(kcal) && d.cookMinutes == ParseInt(mins)
    ensures d.sourceLink == LinkOrNone(link)
    ensures d.imageUri == image && d.rating == rating
    ensures d.notes == d.cuisine == d.mealType == None
  {
    NewDish(Trim(name), Trim(ingredients), Trim(steps), now).(
      kcal := ParseInt(kcal), cookMinutes := ParseInt(mins),
      sourceLink := LinkOrNone(link), imageUri := image, rating := rating)
  }

  /** An enabled Save stores a non-empty name with no surrounding whitespace. */
  lemma EnabledSaveNamesTheDish(name: string, kcal: string, mins: string, ingredients: string,
                                steps: string, link: string, image: Option<string>, rating: Option<Int32>, now: int)
    requires SaveEnabled(name)
    ensures var d := FormDish(name, kcal, mins, ingredients, steps, link, image, rating, now);
      d.dishName != [] && !IsSpace(d.dishName[0]) && !IsSpace(d.dishName[|d.dishName| - 1])
  {
  }

  /** The trimmed text fields are already trimmed: trimming the saved record again changes nothing. */
  lemma SavedTextIsTrimmed(name: string, kcal: string, mins: string, ingredients: string,
                           steps: string, link: string, image: Option<string>, rating: Option<Int32>, now: int)
    ensures var d := FormDish(name, kcal, mins, ingredients, steps, link, image, rating, now);
      Trim(d.dishName) == d.dishName && Trim(d.ingredients) == d.ingredients && Trim(d.steps) == d.steps
  {
    TrimIdempotent(name);
    TrimIdempotent(ingredients);
    TrimIdempotent(steps);
  }

  /** A number typed as `Int.toString()` prints it is stored as that number, in either numeric field. */
  lemma TypedNumberIsStored(name: string, k: Int32, m: Int32, ingredients: string, steps: string,
                            link: string, image: Option<string>, rating: Option<Int32>, now: int)
    ensures var d := FormDish(name, IntToString(k), IntToString(m), ingredients, steps, link, image, rating, now);
      d.kcal == Some(k) && d.cookMinutes == Some(m)
  {
    ParseIntToString(k);
    ParseIntToString(m);
  }

  /** Text with whitespace in it, such as " 12", is not a number and is stored as no value. */
  lemma SpacedNumberIsNotStored(name: string, kcal: string, mins: string, ingredients: string,
                                steps: string, link: string, image: Option<string>, rating: Option<Int32>, now: int)
    requires exists i :: 0 <= i < |kcal| && IsSpace(kcal[i])
    ensures FormDish(name, kcal, mins, ingredients, steps, link, image, rating, now).kcal.None?
  {
  }

  /** The form's field state; each callback overwrites one field. */
  class AddDishForm {
    var name: string
    var kcal: string
    var mins: string
    var ingredients: string
    var steps: string
    var link: string
    var imageUri: Option<string>
    var rating: Option<Int32>

    constructor ()
      ensures name == kcal == mins == ingredients == steps == link == ""
      ensures imageUri == None && rating == None
    {
      name, kcal, mins, ingredients, steps, link := "", "", "", "", "", "";
      imageUri := None;
      rating := None;
    }

    /** `onSet` of the rating control: the tapped value replaces the rating. */
    method OnRatingSet(n: Int32)
      modifies this`rating
      ensures rating == Some(n)
    {
      rating := Some(n);
    }

    /** The photo picker's result: `uri?.toString()`, so a cancelled pick clears the image. */
    method OnImagePicked(uri: Option<string>)
      modifies this`imageUri
      ensures imageUri == uri
    {
      imageUri := uri;
    }

    /**
     * The Save button, inside its IO coroutine. A picked image is first copied by `saveImage`:
     * `copied` is the path it returns, or `None` when it throws (a revoked or stale image URI).
     * Nothing catches that exception, so the coroutine ends before `save` and no dish is stored.
     * Otherwise the built record goes to `upsert`, which, the id being 0, always adds a new dish
     * under a fresh id `k`. Without a picked image `saveImage` is not called and `copied` is unused.
     */
    method Save(dao: DishDao, copied: Option<string>, now: int) returns (k: Option<int>)
      requires SaveEnabled(name) && dao.Valid()
      modifies dao
      ensures dao.Valid()
      ensures k.None? <==> imageUri.Some? && copied.None?
      ensures k.None? ==> dao.rows == old(dao.rows) && dao.lastId == old(dao.lastId)
      ensures k.Some? ==> Observe(old(dao.rows), k.value).None? && k.value == old(dao.lastId) + 1
      ensures k.Some? ==> |dao.rows| == |old(dao.rows)| + 1
      ensures k.Some? ==>
        Observe(dao.rows, k.value) ==
          Some(FormDish(name, kcal, mins, ingredients, steps, link,
                        if imageUri.None? then None else copied, rating, now).(id := k.value))
      ensures k.Some? ==> forall j :: j != k.value ==> Observe(dao.rows, j) == Observe(old(dao.rows), j)
    {
      if imageUri.Some? && copied.None? {
        return None;
      }
      var stable := if imageUri.None? then None else copied;
      var d := FormDish(name, kcal, mins, ingredients, steps, link, stable, rating, now);
      var id := dao.Upsert(d);
      k := Some(id);
    }
  }
}
