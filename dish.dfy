/** The `dishes` entity: one cooked-meal record, an immutable value compared field by field. */
module Dishes {
  import opened Wrappers
  import opened Text

  /**
   * Kotlin `Long` fields (`id`, `dateCooked`) are unbounded integers here; the `Int` fields are `Int32`.
   * No range is imposed on `kcal`, `cookMinutes` or `rating`.
   */
  datatype Dish = Dish(
    id: int,
    dishName: string,
    kcal: Option<Int32>,
    cookMinutes: Option<Int32>,
    ingredients: string,
    steps: string,
    sourceLink: Option<string>,
    notes: Option<string>,
    dateCooked: int,
    cuisine: Option<string>,
    mealType: Option<string>,
    imageUri: Option<string>,
    rating: Option<Int32>)

  /** The id 0 marks a record the store has not assigned an id to yet. */
  predicate IsUnsaved(d: Dish) {
    d.id == 0
  }

  /**
   * The constructor call with only the three required arguments; every optional field takes its
   * default. `now` stands for `System.currentTimeMillis()` at construction time.
   */
  function NewDish(dishName: string, ingredients: string, steps: string, now: int): (d: Dish)
    ensures IsUnsaved(d)
    ensures d.dishName == dishName && d.ingredients == ingredients && d.steps == steps
    ensures d.dateCooked == now
    ensures d.kcal == d.cookMinutes == d.rating == None
    ensures d.sourceLink == d.notes == d.cuisine == d.mealType == d.imageUri == None
  {
    Dish(0, dishName, None, None, ingredients, steps, None, None, now, None, None, None, None)
  }
}
