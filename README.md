# Taste-Journal in Dafny

Taste-Journal is an Android app for keeping a journal of cooked dishes. A dish has a name, calories, cook time,
ingredients, steps, a photo, a rating out of five "bolts" and an optional source link. Users register or log in,
record dishes, and browse them on a home screen (recent, top-rated and "forgotten favourite" lists, plus a
searchable grid), on a details screen and on an auto-scrolling timeline.

This project models the app's core and proves properties about it:

- **The persistence layer.**
  - `DishStore.DishDao` is the Room `dishes` table, modelled as a class. It holds the rows in insertion order and
    SQLite's AUTOINCREMENT counter.
  - `upsert` (`INSERT OR REPLACE`) and `delete` are methods on that class.
  - `all`, `observe`, `recent`, `top` and `forgotten` are functions over the rows. They follow the SQL
    semantics: a NULL rating never satisfies `rating >= min` and sorts lowest, and a negative `LIMIT` means no
    limit.
  - `UserStore.UserDao` is the `users` table. Its `insert` uses the ABORT conflict strategy, and it has the
    `byEmail`, `login` and `byId` lookups.
- **The session slot** (`SessionStore.Session`). It holds the logged-in user's id in a preference slot, and an
  empty slot reads as 0.
- **The screens' logic.**
  - The add-dish form turns its fields into a `Dish`, including the rule that enables Save.
  - Log-in and registration submit. This includes the start mode taken from the intent extra and the mode
    toggle.
  - The change-password flow.
  - The home list's search filter, and the three home queries with their constants: 10 rows, rating at least 4,
    a 60-day window.
  - The details screen's labels, subtitle, ingredient list, placeholder texts and share text.
  - The recipe card's bolts and pills.
  - The five-bolt rating row.
  - The timeline's auto-scroll step and card labels.

The Kotlin standard-library behaviour the screens rely on is written out in module `Text`. This covers `trim`,
`isBlank`, `contains(ignoreCase = true)`, `split`, `toIntOrNull` and `Int.toString`. The modules are:

- `Wrappers`
- `Text`
- `Sequences`
- `Dishes`
- `DishStore`
- `UserStore`
- `SessionStore`
- `Auth`
- `PasswordChange`
- `AddDish`
- `Home`
- `Details`
- `RecipeCard`
- `BoltRating`
- `Timeline`

## Model

Paths are relative to the repository root. The timeline card's kcal label
(`src/main/java/com/griffith/ui/theme/components/TimelineComponents.kt:117`) is the same expression as the recipe
card's kcal pill, so it is modelled by `RecipeCard.KcalPill`.

| member | source | states |
|---|---|---|
| Dishes.NewDish | src/main/java/com/griffith/data/Dish.kt:7-20 | A dish built from the three required fields has id 0 (to be generated), cooking date `now`, and every optional field null. |
| DishStore.DishDao.constructor | src/main/java/com/griffith/data/DishDao.kt:8 | A fresh table is empty, has AUTOINCREMENT counter 0, and satisfies the table invariant (unique ids, all ids within the counter). |
| DishStore.DishDao.Upsert | src/main/java/com/griffith/data/DishDao.kt:9 | Id 0 gets the fresh id counter+1. Any other id replaces the row with that id, or is appended. Afterwards `observe(k)` yields the dish with id k, every other id observes what it did before, the row count grows only when k was new, and the counter is raised to k when k is larger. The invariant is kept. |
| DishStore.DishDao.Delete | src/main/java/com/griffith/data/DishDao.kt:10 | Afterwards the dish's id observes nothing and every other id observes what it did before. The row count drops by one exactly when the id was present. The counter is unchanged and the invariant is kept. |
| DishStore.All | src/main/java/com/griffith/data/DishDao.kt:12-13 | The result is a permutation of the table, ordered by `dateCooked` descending. |
| DishStore.Observe | src/main/java/com/griffith/data/DishDao.kt:15-16 | A result is a stored row with that id. The result is null exactly when no row has that id. |
| DishStore.ObserveRow | src/main/java/com/griffith/data/DishDao.kt:15-16 | With unique ids, `observe` of a stored row's id yields that row. |
| DishStore.Recent | src/main/java/com/griffith/data/DishDao.kt:19-20 | The result has min(n, size) rows, or all of them for a negative LIMIT. It is a sub-multiset of the table, newest first, and no row left out is newer than a row kept. |
| DishStore.Top | src/main/java/com/griffith/data/DishDao.kt:25-26 | Same length rule as `recent`, and a sub-multiset of the table. Ratings are descending, with NULL last. Equal ratings are ordered by date descending. No row left out precedes a kept row in that order. |
| DishStore.Where | src/main/java/com/griffith/data/DishDao.kt:22 | The WHERE clause keeps exactly the rows with `rating >= min` (null never qualifies) and `dateCooked <= cutoff`, as a sub-multiset. |
| DishStore.Forgotten | src/main/java/com/griffith/data/DishDao.kt:22-23 | Every row qualifies and rows are oldest first. At most n rows when n >= 0. A qualifying row is left out only when the LIMIT was reached by rows no newer than it. |
| DishStore.ForgottenSelection | src/main/java/com/griffith/data/DishDao.kt:22-23 | The SQL pipeline (filter, sort ascending, limit) has the properties `Forgotten` promises. |
| DishStore.SortBy | src/main/java/com/griffith/data/DishDao.kt:12 | ORDER BY returns a permutation of its input. |
| DishStore.SortBySorted | src/main/java/com/griffith/data/DishDao.kt:12 | ORDER BY's result is sorted by the clause's order and has exactly the input's elements. |
| DishStore.Limit | src/main/java/com/griffith/data/DishDao.kt:19 | LIMIT n keeps a prefix of length n, or the whole sequence when n is negative or too large. |
| DishStore.LimitOfSorted | src/main/java/com/griffith/data/DishDao.kt:19 | A limited sorted sequence is sorted and a sub-multiset of the original. Every kept row precedes every dropped row. |
| DishStore.SortLimit | src/main/java/com/griffith/data/DishDao.kt:19-26 | ORDER BY … LIMIT n has the length of the LIMIT rule and is sorted. It is a sub-multiset of its input, a permutation when nothing is cut, and every kept row precedes every dropped one. |
| DishStore.InsertSorted | src/main/java/com/griffith/data/DishDao.kt:12 | Inserting into a sorted sequence keeps it sorted, for each of the three orders. |
| DishStore.WithoutId | src/main/java/com/griffith/data/DishDao.kt:10 | DELETE keeps exactly the rows with a different id. When the id is absent the table is unchanged. |
| DishStore.WithoutIdUnique | src/main/java/com/griffith/data/DishDao.kt:10 | Deleting keeps ids unique, and removes one row exactly when the id was present. |
| DishStore.ReplaceRow | src/main/java/com/griffith/data/DishDao.kt:9 | Replacing the row that holds an id keeps ids unique, makes the id observe the new row and changes no other id. |
| DishStore.AppendRow | src/main/java/com/griffith/data/DishDao.kt:9 | Appending a row with a new id keeps ids unique, makes the id observe the row and changes no other id. |
| DishStore.RemoveRow | src/main/java/com/griffith/data/DishDao.kt:10 | After deleting an id, that id observes nothing and every other id observes what it did before. |
| DishStore.RecentOfTwo | src/main/java/com/griffith/data/DishDao.kt:19-20 | Illustration only, an instance of `Recent`: of two dishes, `recent(1)` is the one cooked later, whichever was stored first. |
| DishStore.TopOfTwo | src/main/java/com/griffith/data/DishDao.kt:25-26 | Illustration only, an instance of `Top`: of a dish rated 5 and one rated 3, `top(1)` is the one rated 5, whichever was stored first. |
| DishStore.TacosThenSoup | src/main/java/com/griffith/data/DishDao.kt:9-26 | Upsert Tacos (rating 5, cooked at t1) and then Soup (rating 3, cooked at t2 > t1) into an empty table. They get ids 1 and 2, `recent(1)` is [Soup] and `top(1)` is [Tacos]. |
| UserStore.UserDao.constructor | src/main/java/com/griffith/data/UserDao.kt:8 | A fresh users table is empty, with counter 0 and the given email-uniqueness setting. |
| UserStore.UserDao.Insert | src/main/java/com/griffith/data/UserDao.kt:10-11 | The insert fails (ABORT) exactly when the id is taken, or when the email is taken under a unique email index. A failure changes nothing. On success the id is the explicit id, or counter+1 for id 0. The user is appended under that id, `byId` finds it and no other id changes. |
| UserStore.InsertConflicts | src/main/java/com/griffith/data/UserDao.kt:10-11 | Defines the ABORT conflict: the insert's id is already stored, or the email is taken under a unique index. `UserDao.Insert` fails exactly when it holds, and `FreshIdNeverConflicts` and `StoredUserConflicts` are stated about it. |
| UserStore.ByEmail | src/main/java/com/griffith/data/UserDao.kt:13-14 | A result is a stored user with that email. The result is null exactly when no user has it. |
| UserStore.Login | src/main/java/com/griffith/data/UserDao.kt:16-17 | A result is a stored user with that email and that password. The result is null exactly when no user has both. |
| UserStore.LoginFindsEmail | src/main/java/com/griffith/data/UserDao.kt:13-17 | A successful login implies `byEmail` finds a user. |
| UserStore.ById | src/main/java/com/griffith/data/UserDao.kt:19-20 | A result is a stored user with that id. The result is null exactly when no user has it. |
| UserStore.ByIdRow | src/main/java/com/griffith/data/UserDao.kt:19-20 | With unique ids, `byId` of a stored user's id yields that user. |
| UserStore.FreshIdNeverConflicts | src/main/java/com/griffith/data/UserDao.kt:10-11 | A user with id 0 conflicts only through the email index. |
| UserStore.StoredUserConflicts | src/main/java/com/griffith/data/UserDao.kt:10-11 | Inserting a copy of a stored user (same id) always aborts. |
| UserStore.AppendUser | src/main/java/com/griffith/data/UserDao.kt:10-11 | Appending a user with a new id keeps ids unique, makes `byId` find it and changes no other id. |
| UserStore.ReplaceUser | src/main/java/com/griffith/data/UserDao.kt:19-20 | Replacing the row holding an id keeps ids unique, makes `byId` find the new row and changes no other id. |
| UserStore.EmailsUniqueReplace | src/main/java/com/griffith/data/UserDao.kt:13-14 | Replacing a user's row by one whose email no other user holds keeps emails unique. |
| UserStore.OwnEmailNotHeldByOther | src/main/java/com/griffith/data/UserDao.kt:19-20 | Under unique emails, a stored user's own email is held by no other id. |
| UserStore.UserDao.Update | src/main/java/com/griffith/ChangePasswordActivity.kt:74 | The corrected write (UPDATE by id) succeeds exactly when the id exists and, under a unique email index, no other user holds the email. On success `byId` yields the new row and no other id changes. On failure nothing changes. |
| SessionStore.ReadUserId | src/main/java/com/griffith/util/Session.kt:16-19 | Defines `getLong(KEY_USER, 0L)` on the slot. A nonzero read is the stored id, and a read of 0 means the key is absent or holds 0; `StoredZeroReadsAsCleared` states that those two cannot be told apart. |
| SessionStore.StoredZeroReadsAsCleared | src/main/java/com/griffith/util/Session.kt:16-26 | A stored 0 cannot be told apart from a cleared session. |
| SessionStore.Session.constructor | src/main/java/com/griffith/util/Session.kt:5 | The session starts with what the preference file holds. |
| SessionStore.Session.UserId | src/main/java/com/griffith/util/Session.kt:16-19 | Defines `userId` as that read of the slot, so a nonzero id is one that was stored. `SetUser` and `Clear` state what it returns after each write: the id just set, and 0. |
| SessionStore.Session.SetUser | src/main/java/com/griffith/util/Session.kt:9-14 | Afterwards the slot holds the id and `userId` returns it. |
| SessionStore.Session.Clear | src/main/java/com/griffith/util/Session.kt:21-26 | Afterwards the slot is empty and `userId` returns 0. |
| Auth.StartsInLogin | src/main/java/com/griffith/AuthActivity.kt:53-58 | Defines the start mode: a missing extra and every value other than "register" open the login form. `AuthScreen.constructor` starts the screen in it, `ToggleMode` flips it, and `Submit` with `Attempted` states which branch each mode runs. |
| Auth.LoginAttempt | src/main/java/com/griffith/AuthActivity.kt:136-140 | A blank email or password gives no user. Otherwise the result is `login(trim(email), password)`: a stored user with those credentials, null exactly when none exists. |
| Auth.RegisterFieldsFilled | src/main/java/com/griffith/AuthActivity.kt:142-143 | The register branch goes ahead exactly when the name, the email and the password are all non-blank (trimming does not change that). |
| Auth.Attempted | src/main/java/com/griffith/AuthActivity.kt:136-152 | Defines one submit's effect on the users table and its result: the login lookup with the table unchanged; nothing for unfilled register fields; otherwise the trimmed user inserted under counter+1, or nothing with the table unchanged when the insert aborts. `RegisteredUserCanLogIn` and `AuthScreen.Submit` are stated with it. |
| Auth.FailureMessage | src/main/java/com/griffith/AuthActivity.kt:161-162 | Defines the error shown after a failed submit: "Invalid email or password" in login mode, "Registration failed (email may already exist)" in register mode. `AuthScreen.Submit` states that a failure shows it. |
| Auth.RegisteredUserCanLogIn | src/main/java/com/griffith/AuthActivity.kt:139-152 | After a successful registration, logging in with the same email and password finds a user. Under a unique email index it finds exactly the registered user. |
| Auth.AuthScreen.constructor | src/main/java/com/griffith/AuthActivity.kt:53-66 | The screen starts in the mode the intent asks for, with empty fields, no error and not loading. |
| Auth.AuthScreen.ToggleMode | src/main/java/com/griffith/AuthActivity.kt:190-195 | Toggling flips the mode and clears the error and the password. The name is cleared only when leaving register mode. The email is kept. |
| Auth.AuthScreen.Attempt | src/main/java/com/griffith/AuthActivity.kt:135-152 | Login mode looks up and changes nothing. Register mode with a blank trimmed name, email or password does nothing. Otherwise it inserts the trimmed user: it fails, changing nothing, exactly when the insert conflicts, and on success returns the user with its new id, appended to the table. |
| Auth.AuthScreen.Submit | src/main/java/com/griffith/AuthActivity.kt:131-165 | The attempt described above, after which loading is off. Success stores the user's id in the session with no error. Failure leaves the session alone and shows the mode's message. |
| PasswordChange.CheckChange | src/main/java/com/griffith/ChangePasswordActivity.kt:69-71 | Defines the check. A blank new password or a missing user is rejected whatever else holds, a wrong current password is rejected, and otherwise the change is allowed exactly when the new password keeps something once trimmed. `NoSessionNoChange`, `SaveAsWritten` and `Save` are stated about it. |
| PasswordChange.NoSessionNoChange | src/main/java/com/griffith/ChangePasswordActivity.kt:69-71 | With no session (id 0) and a well-formed table, the change is never allowed. |
| PasswordChange.ChangePasswordScreen.constructor | src/main/java/com/griffith/ChangePasswordActivity.kt:32-34 | The screen starts with empty fields and no message. |
| PasswordChange.ChangePasswordScreen.SaveAsWritten | src/main/java/com/griffith/ChangePasswordActivity.kt:66-79 | As written, the table never changes and the outcome is never Done. The save crashes exactly when the check passes. A failed check shows "Password change failed". |
| PasswordChange.ChangePasswordScreen.Save | src/main/java/com/griffith/ChangePasswordActivity.kt:66-79 | Corrected: the save never crashes and is Done exactly when the check passes. Then `byId` yields the old user with the new password and no other user changes. A rejection changes nothing and shows the message. |
| AddDish.LinkOrNone | src/main/java/com/griffith/AddDishActivity.kt:150 | Defines `ifBlank { null }`. A stored link is the text exactly as typed and is never blank, and a link is stored exactly when the trimmed text is non-empty. `FormDish` states that the saved dish carries it. |
| AddDish.SaveEnabled | src/main/java/com/griffith/AddDishActivity.kt:138 | Save is enabled exactly when the trimmed name is non-empty. |
| AddDish.FormDish | src/main/java/com/griffith/AddDishActivity.kt:143-153 | The saved dish is new (id 0) and cooked `now`. It has the trimmed name, ingredients and steps. Its kcal and cook minutes are `toIntOrNull` of the typed text. It has the link rule, the picked image and rating, and no notes, cuisine or meal type. |
| AddDish.EnabledSaveNamesTheDish | src/main/java/com/griffith/AddDishActivity.kt:138-145 | When Save is enabled, the stored name is not blank. |
| AddDish.SavedTextIsTrimmed | src/main/java/com/griffith/AddDishActivity.kt:145-149 | The stored texts neither start nor end with whitespace, and trimming them again changes nothing. |
| AddDish.TypedNumberIsStored | src/main/java/com/griffith/AddDishActivity.kt:146-147 | Typing the decimal form of an Int stores exactly that number for kcal and minutes. |
| AddDish.SpacedNumberIsNotStored | src/main/java/com/griffith/AddDishActivity.kt:146 | kcal text containing whitespace is stored as null, because `toIntOrNull` is applied without trimming. |
| AddDish.AddDishForm.constructor | src/main/java/com/griffith/AddDishActivity.kt:53-60 | The form starts with empty texts and no image or rating. |
| AddDish.AddDishForm.OnRatingSet | src/main/java/com/griffith/AddDishActivity.kt:127 | Tapping a bolt sets the rating to its value. |
| AddDish.AddDishForm.OnImagePicked | src/main/java/com/griffith/AddDishActivity.kt:62-66 | Picking an image (or cancelling) sets the image URI to the result. |
| AddDish.AddDishForm.Save | src/main/java/com/griffith/AddDishActivity.kt:137-153 | With a picked image whose copy throws, nothing is stored and the table is unchanged. Otherwise Save upserts the form's dish, with the copy's path as image, or null when no image was picked. The dish gets the fresh id counter+1, the table grows by one, `observe` of that id yields the form's dish, and no other id changes. |
| Home.HomeRecent | src/main/java/com/griffith/MainActivity.kt:263 | The home "recent" list has min(10, size) dishes taken from the table (a sub-multiset), newest first, and no dish left out is newer than a dish shown. |
| Home.HomeTop | src/main/java/com/griffith/MainActivity.kt:264 | The home "top" list has min(10, size) dishes taken from the table. Ratings are descending with unrated dishes last, equal ratings are newest first, and no dish left out ranks above a dish shown. |
| Home.HomeForgotten | src/main/java/com/griffith/MainActivity.kt:265 | At most 10 dishes taken from the table, oldest first. Each is rated at least 4 and cooked at least 60 days (5 184 000 000 ms) before `now`. A dish meeting both conditions is left out only when 10 are shown and none of them was cooked later than it. |
| Home.FilterBy | src/main/java/com/griffith/MainActivity.kt:279-283 | The filter keeps a subsequence of the list (order kept). Every kept dish matches on name, cuisine or meal type, ignoring case. Every matching dish is kept, with its multiplicity. |
| Home.Matches | src/main/java/com/griffith/MainActivity.kt:280-282 | Defines a match: the trimmed query occurs, ignoring case, in the name, the cuisine or the meal type, a null tag counting as "". `FilterBy` keeps exactly the matching dishes. |
| Home.Filtered | src/main/java/com/griffith/MainActivity.kt:276-284 | A blank query shows the whole list. Otherwise the list is filtered by the trimmed query. |
| Home.FilterByIdempotent | src/main/java/com/griffith/MainActivity.kt:279-283 | Filtering twice by the same text equals filtering once. |
| Home.FilteredIdempotent | src/main/java/com/griffith/MainActivity.kt:276-284 | Applying the search twice equals applying it once. |
| Home.MissingTagsNeverMatch | src/main/java/com/griffith/MainActivity.kt:281-282 | For a dish without cuisine and meal type, a non-blank query matches exactly when the name contains it. |
| Home.HomeVM.constructor | src/main/java/com/griffith/MainActivity.kt:260-268 | The view model starts with an empty list and an empty query. |
| Home.HomeVM.SetQuery | src/main/java/com/griffith/MainActivity.kt:271-273 | Setting the query stores it, and the shown list becomes the list filtered by it. |
| Home.HomeVM.Collect | src/main/java/com/griffith/MainActivity.kt:286-290 | Collecting `all()` stores the table's rows newest first, as a permutation of the table. |
| Details.KcalLabelReadsBack | src/main/java/com/griffith/DetailsActivity.kt:137 | The kcal label reads back as the dish's kcal, or 0 when unknown. |
| Details.CookTimeLabelReadsBack | src/main/java/com/griffith/DetailsActivity.kt:142-144 | The cook-time label ("m mins" or "h hr m mins") reads back as the dish's minutes, or 0 when unknown. |
| Details.CookTimeMatchesCard | src/main/java/com/griffith/DetailsActivity.kt:142-144 | With known minutes the label equals the card's time pill. With unknown minutes it is "0 mins", where the card shows a dash. |
| Details.KcalLabel | src/main/java/com/griffith/DetailsActivity.kt:137 | Defines the kcal stat, "k Kcal" with 0 for an unknown value. `KcalLabelReadsBack` proves it reads back as the dish's kcal. |
| Details.CookTimeLabel | src/main/java/com/griffith/DetailsActivity.kt:142-144 | Defines the cook-time stat in the card's hour-split form, with 0 for an unknown time. `CookTimeLabelReadsBack` and `CookTimeMatchesCard` are stated about it. |
| Details.Tags | src/main/java/com/griffith/DetailsActivity.kt:100 | `listOfNotNull(mealType, cuisine)` holds the present tags, meal type first. |
| Details.Subtitle | src/main/java/com/griffith/DetailsActivity.kt:100 | Defines the subtitle as the present tags joined by a vertical bar with a space on each side. `SubtitleShownWhen` states when it is drawn. |
| Details.SubtitleShown | src/main/java/com/griffith/DetailsActivity.kt:101 | Defines the subtitle as drawn exactly when it is not blank. `SubtitleShownWhen` restates this in terms of the tags. |
| Details.SubtitleShownWhen | src/main/java/com/griffith/DetailsActivity.kt:100-101 | The subtitle is shown exactly when both tags are present, or a present tag is not blank. |
| Details.TrimAll | src/main/java/com/griffith/DetailsActivity.kt:296 | `map { it.trim() }` trims every piece and keeps the count. |
| Details.Items | src/main/java/com/griffith/DetailsActivity.kt:296 | There are no more items than pieces. Every item is non-empty and neither starts nor ends with whitespace. |
| Details.ItemsSelect | src/main/java/com/griffith/DetailsActivity.kt:296 | The items are a subsequence of the trimmed pieces. Every non-empty trimmed piece is kept, with its multiplicity. |
| Details.IngredientItems | src/main/java/com/griffith/DetailsActivity.kt:296 | At most one item per line. The items are non-empty and trimmed, they are a subsequence of the trimmed lines, and every non-empty trimmed line is kept. |
| Details.ItemsOfLines | src/main/java/com/griffith/DetailsActivity.kt:296 | Ingredients written one trimmed, non-empty item per line come back as exactly those items. |
| Details.ItemsDropLastEmpty | src/main/java/com/griffith/DetailsActivity.kt:296 | A trailing empty piece is dropped. |
| Details.InstructionsText | src/main/java/com/griffith/DetailsActivity.kt:312-318 | The shown instructions are never blank. They are the steps when those are not blank, and "No instructions added yet." otherwise. |
| Details.NotesText | src/main/java/com/griffith/DetailsActivity.kt:321-327 | The shown notes are never blank. They are the notes when present and not blank, and "No notes added yet." otherwise. |
| Details.ShareText | src/main/java/com/griffith/DetailsActivity.kt:167-176 | The share text is non-empty and ends with a line break. Its content is stated by `ShareTextLines`. |
| Details.ShareTextLines | src/main/java/com/griffith/DetailsActivity.kt:167-176 | For every dish, the share text splits at line breaks into: the pieces of the name, the pieces of the link if present, a blank line, "Ingredients:", the pieces of the ingredients, a blank line, "Instructions:", the pieces of the steps, and a final empty piece. Multi-line ingredients and steps contribute each of their lines. |
| Details.ShareTextSingleLines | src/main/java/com/griffith/DetailsActivity.kt:167-176 | When no field holds a line break, the share text splits back into exactly the lines it was built from, plus a final empty piece. |
| RecipeCard.BoltCount | src/main/java/com/griffith/ui/theme/components/RecipeCard.kt:43 | Defines the card's bolt count. A nonzero count is the stored rating, and a non-negative rating is drawn in full. `Bolts` draws that many glyphs and `BoltRating.CardAgreesWithRow` states that the card agrees with the rating row. |
| RecipeCard.Bolts | src/main/java/com/griffith/ui/theme/components/RecipeCard.kt:43-45 | The bolts drawn are `BoltCount` copies of the bolt glyph. |
| RecipeCard.MinutesText | src/main/java/com/griffith/ui/theme/components/RecipeCard.kt:79-81 | Defines the cook-time text, "m mins" under an hour and "h hr m mins" otherwise. `MinutesTextReadsBack` proves it reads back as the minutes. |
| RecipeCard.KcalPill | src/main/java/com/griffith/ui/theme/components/RecipeCard.kt:78 | Defines the kcal pill, "k kcal" or a dash. `KcalPillReadsBack` proves it reads back as the dish's kcal. The timeline card's kcal label (TimelineComponents.kt:117) is the same text. |
| RecipeCard.TimePill | src/main/java/com/griffith/ui/theme/components/RecipeCard.kt:79-81 | Defines the time pill, `MinutesText` or a dash. `TimePillReadsBack` proves it reads back as the dish's minutes. |
| RecipeCard.KcalPillReadsBack | src/main/java/com/griffith/ui/theme/components/RecipeCard.kt:78 | The kcal pill reads back as the dish's kcal, and as nothing for the dash. |
| RecipeCard.HoursAndMinutes | src/main/java/com/griffith/ui/theme/components/RecipeCard.kt:80 | For 60 minutes or more, the hours are at least 1, the minutes are below 60 and together they recompose the total. |
| RecipeCard.SplitHours | src/main/java/com/griffith/ui/theme/components/RecipeCard.kt:80 | The hour form splits into four words: hours, "hr", minutes, "mins". |
| RecipeCard.MinutesTextReadsBack | src/main/java/com/griffith/ui/theme/components/RecipeCard.kt:79-81 | Both cook-time forms read back as the original number of minutes. |
| RecipeCard.TimePillReadsBack | src/main/java/com/griffith/ui/theme/components/RecipeCard.kt:79-81 | The time pill reads back as the dish's minutes, and as nothing for the dash. |
| BoltRating.SymbolsFrom | src/main/java/com/griffith/ui/theme/components/BoltRating.kt:11-12 | The symbols n..5 carry their tap values, and each is lit exactly when the value is at most the current rating. |
| BoltRating.Row | src/main/java/com/griffith/ui/theme/components/BoltRating.kt:11-13 | Five symbols with tap values 1..5. Symbol i is lit exactly when `(current ?: 0) >= i + 1`. |
| BoltRating.LitPrefix | src/main/java/com/griffith/ui/theme/components/BoltRating.kt:11-12 | The lit symbols form a prefix of the row, and there are clamp(current, 0, 5) of them. |
| BoltRating.TapSetsRating | src/main/java/com/griffith/ui/theme/components/BoltRating.kt:13 | Tapping symbol i reports a rating in 1..5, and the row for that rating lights exactly i + 1 symbols. |
| BoltRating.CardAgreesWithRow | src/main/java/com/griffith/ui/theme/components/BoltRating.kt:11-12 | For ratings 0..5, the recipe card draws as many bolts as the rating row lights. |
| Timeline.LastIndex | src/main/java/com/griffith/ui/theme/components/TimelineComponents.kt:65 | Defines `lastIndex.coerceAtLeast(0)`: the largest index of a non-empty list, and 0 for an empty one. `PositionInRange` and `AutoScroll` state that every tick stays within it. |
| Timeline.NextIndex | src/main/java/com/griffith/ui/theme/components/TimelineComponents.kt:67-71 | One tick never leaves the range 0..last, and a single-item list stays at 0. |
| Timeline.PositionInRange | src/main/java/com/griffith/ui/theme/components/TimelineComponents.kt:64-71 | Any number of ticks from an index in range stays in range. |
| Timeline.PositionAdd | src/main/java/com/griffith/ui/theme/components/TimelineComponents.kt:61-71 | i ticks and then j ticks equal i + j ticks. |
| Timeline.RightToLeftAdvances | src/main/java/com/griffith/ui/theme/components/TimelineComponents.kt:68 | Right-to-left, the index advances by one per tick until the last item. |
| Timeline.LeftToRightRetreats | src/main/java/com/griffith/ui/theme/components/TimelineComponents.kt:70 | Left-to-right, the index falls by one per tick until the first item. |
| Timeline.FullCycleReturns | src/main/java/com/griffith/ui/theme/components/TimelineComponents.kt:64-71 | In either direction, count ticks bring the index back to where it started. |
| Timeline.SingleItemStaysPut | src/main/java/com/griffith/ui/theme/components/TimelineComponents.kt:64-71 | With one item, the index stays 0 for ever. |
| Timeline.AutoScroll | src/main/java/com/griffith/ui/theme/components/TimelineComponents.kt:52-72 | An empty list scrolls nowhere. Otherwise the run starts at the last item for left-to-right, and for right-to-left at the list state's retained first visible index (0 for a fresh state). It makes `ticks` steps. Every index after the start is in range, each step is `NextIndex`, and the k-th index is k ticks from the start. |
| Timeline.RightToLeftBackInRange | src/main/java/com/griffith/ui/theme/components/TimelineComponents.kt:67-68 | Right to left, even a retained index beyond the last item (after the list lost items) is in range from the first tick on. |
| Timeline.CardMinutesMatchPill | src/main/java/com/griffith/ui/theme/components/TimelineComponents.kt:122 | The timeline's minutes label equals the home card's time pill exactly when the minutes are unknown or below 60. |
| Timeline.CardMinutes | src/main/java/com/griffith/ui/theme/components/TimelineComponents.kt:122 | Defines the timeline card's minutes label, "m mins" with no hour split, or a dash. `CardMinutesReadBack` and `CardMinutesMatchPill` are stated about it. |
| Timeline.CardMinutesReadBack | src/main/java/com/griffith/ui/theme/components/TimelineComponents.kt:122 | The timeline's minutes label reads back as the dish's minutes, and as nothing for the dash. |
| Text.Trim | src/main/java/com/griffith/AddDishActivity.kt:145 | `trim()` drops exactly the leading and trailing whitespace. The result is a slice of the input, blank around it, with non-space ends, and empty exactly when the input is blank. |
| Text.IsSpace | src/main/java/com/griffith/AddDishActivity.kt:145 | Defines `isWhitespace` over ASCII: tab through carriage return, the four separators 28 to 31, and space. `Trim` and `IsBlank` are built on it. |
| Text.IsBlank | src/main/java/com/griffith/ChangePasswordActivity.kt:71 | Defines `isBlank` (and `isNotBlank` as its negation, as in AddDishActivity.kt:138): every character is whitespace. `Trim` states that a text is blank exactly when it trims to "". |
| Text.TrimIdempotent | src/main/java/com/griffith/AddDishActivity.kt:145-149 | Trimming twice equals trimming once. |
| Text.Contains | src/main/java/com/griffith/MainActivity.kt:280-282 | `contains` holds exactly when the needle occurs at some position. |
| Text.ContainsIgnoreCase | src/main/java/com/griffith/MainActivity.kt:280-282 | Defines `contains(…, ignoreCase = true)` as `Contains` on the ASCII-lower-cased texts. `Home.FilterBy` keeps exactly the dishes it matches, and `EmptyContainsNothing` states that "" contains no non-empty query. |
| Text.EmptyContainsNothing | src/main/java/com/griffith/MainActivity.kt:281-282 | A null tag, searched as "", contains no non-empty query. |
| Text.Split | src/main/java/com/griffith/DetailsActivity.kt:296 | `split` gives one more piece than the number of separators, and no piece holds the separator. |
| Text.JoinSplit | src/main/java/com/griffith/DetailsActivity.kt:296 | Joining the pieces of a split with the separator gives back the string. |
| Text.Join | src/main/java/com/griffith/DetailsActivity.kt:100 | Defines `joinToString(sep)`. `JoinSplit` states that it undoes `Split`, and `Details.SubtitleShownWhen` states when the joined tags are shown. |
| Text.Lines | src/main/java/com/griffith/DetailsActivity.kt:167-176 | Defines `buildString` with one `appendLine` per piece. `SplitLines` and `SplitLinesAll` state how the built text splits back. |
| Text.SplitLines | src/main/java/com/griffith/DetailsActivity.kt:167-176 | Text built with `appendLine` splits back into its lines followed by one empty piece. |
| Text.SplitSep | src/main/java/com/griffith/DetailsActivity.kt:296 | Splitting around one delimiter gives the pieces of the left side followed by those of the right side. |
| Text.SplitLinesAll | src/main/java/com/griffith/DetailsActivity.kt:167-176 | Any text built with `appendLine` splits into the pieces of each line in turn, followed by one empty piece. |
| Text.ParseInt | src/main/java/com/griffith/AddDishActivity.kt:146-147 | `toIntOrNull` accepts no text with whitespace. |
| Text.ParseIntToString | src/main/java/com/griffith/AddDishActivity.kt:146-147 | `toIntOrNull` of an Int's decimal form gives that Int back. |
| Text.IntToString | src/main/java/com/griffith/ui/theme/components/RecipeCard.kt:78 | An Int's decimal form is non-empty digits, led by '-' exactly when it is negative. |
| Text.DigitsOfNat | src/main/java/com/griffith/AddDishActivity.kt:146-147 | The digits of a natural number read back as that number. |

## Left out

- Coroutines, `Flow`, `StateFlow` and dispatchers. Reactive queries are modelled as functions of the current rows; `HomeVM.Collect` stands for one emission of `all()`.
- The work that runs after a screen launches is modelled as completing at once. Races between screens are not modelled.
- Navigation intents, activity finishing, toasts and every Compose layout and styling detail.
- The `delay(1200)` of the timeline.
- Timeline.AutoScroll: does not model the endless `while (true)` loop; a `ticks` parameter bounds the run.
- Timeline.AutoScroll: it assumes the item scrolled to becomes `firstVisibleItemIndex`. The `LazyListState` clamping near the end of a wide screen, and its clamping of a retained index when the list shrinks, are not modelled; the retained index is the `resumeAt` parameter, which may be any value.
- Image copying itself (`saveImage`, `ImageStore.kt`): the file it writes is not modelled. The path it returns, or the exception it throws, is the `copied` parameter of `AddDishForm.Save`.
- `System.currentTimeMillis()` is the `now` parameter.
- `DateFmt.kt` is not part of this model.
- `DishRepository.kt` is not part of this model. It only forwards to the DAO; its `random` and `clear` are not used by the modelled screens.
- The shake-to-shuffle screen, the profile screen, the welcome screen, the video background and the sensors are not part of this model.
- The `User` entity's source is not part of this model. It is taken to be `User(id: Long = 0 autoGenerate, name, email, password)`.
- Whether the `users` table has a unique email index is unknown. It is the `emailUnique` parameter of `UserDao`.
- UserStore.UserDao.Update: the source DAO declares no update operation. It exists only as the corrected write of the change-password finding.
- `Long` ids and timestamps are unbounded integers. 64-bit overflow (for example `now - 60 days` near the minimum Long) is not modelled. `Int` fields are 32-bit.
- Whitespace, case folding and digits follow Kotlin's rules restricted to ASCII. Unicode whitespace, non-ASCII case mappings and non-ASCII digits are not modelled.
- DishStore.All: it does not fix the order of dishes with equal sort keys, because SQL leaves that order unspecified. `Recent`, `Top` and `Forgotten` are the same.
- Room's `@Delete` matches by primary key only, which is the model. No other column of the argument is compared.
- Text.ParseInt: its own contract states only that text with whitespace is refused. The exact accepted language (an optional sign, ASCII digits, the Int range) is in its definition and in `ParseIntToString`.

## Findings

| source | as written | input that shows it | evidently intended | confidence | as-written member | corrected member |
|---|---|---|---|---|---|---|
| src/main/java/com/griffith/ChangePasswordActivity.kt:74 | The new password is saved with `userDao.insert(u.copy(password = newPass))`. That insert uses the ABORT strategy and keeps the id of the stored user `u`, so it always violates the primary key. The exception is not caught inside `scope.launch(Dispatchers.IO)`, so the app crashes and the password is never changed. | A logged-in user whose stored password equals `current`, with a non-blank `newPass`: every input that passes the check. | Replace the stored user's password (an UPDATE or REPLACE of the row with that id), then call `onDone()`. | high; not executed | PasswordChange.ChangePasswordScreen.SaveAsWritten (with UserStore.StoredUserConflicts) | PasswordChange.ChangePasswordScreen.Save (with UserStore.UserDao.Update) |
