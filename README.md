# Recipe finder view controller, modelled in Dafny

The system is a browser page for finding recipes by ingredient. The user types ingredients or
clicks quick tags, searches, browses result cards and opens a recipe's details. All of its
behaviour sits in one view controller class, `RecipeFinder` (script.js). This project models
the logic under that class's DOM calls, and proves what it promises:

- the quick-tag merge of the ingredient field (`addIngredient`);
- the markup stripping, truncation and line breaking of recipe text (`cleanSummary`,
  `cleanInstructions`);
- the ingredient badges of a recipe card (`renderUsedIngredients`,
  `renderMissingIngredients`);
- the card and detail view choices (`displayRecipes`, `displayRecipeDetails`);
- the page, navigation and sidebar state (`showPage`, `toggleSidebar`);
- the control flow of the searches (`searchRecipes`, `showRecipeDetails`, `showLoading`).

Modules, one per concern:

- `Wrappers` holds `Option` (JavaScript's null or absent field) and `Fetched` (the outcome of
  one API request).
- `Text` holds JavaScript's `trim`, `split` on one character and `join`.
- `Ingredients` holds the entries of the ingredient field and the quick-tag merge.
- `Markup` holds the tag-stripping scan, `cleanSummary`, and `cleanInstructions` with its
  inverse.
- `Badges` holds the badge lists of a card.
- `Recipes` holds the API records and the card and detail view values.
- `Navigation` holds pure facts about the page and nav flags.
- `Finder` holds the class `RecipeFinder`. Its fields are the abstracted document: the nav
  items' `data-page` values, the page ids, an `active` flag array for each, `currentPage`,
  `currentRecipes`, the sidebar, the loading indicator, the input field, the cards, the
  "no results" marker, the subtitle and the detail view. Its methods change these fields as
  the source's methods change the DOM. The `forEach` loops over nav items and pages are
  `for` loops over the flag arrays.

The two API endpoints are function parameters of the methods that call them: ingredient text
to a search response, recipe id to a detail response. Each asynchronous method runs as one
atomic step. The ghost field `loadingHistory` records every value the loading indicator takes,
so the model can state that the indicator is switched on and then off again.

Two details of the code shape the model:

- An unknown page name leaves no page active, because every page is switched off before the
  lookup (script.js:76-78). `currentPage` keeps its old value in that case, so "the current
  page is the one page shown" (`ShowsCurrentPage`) holds only after a known page is shown.
- `addIngredient` compares the tag with the trimmed, non-empty entries (script.js:93-95).

## Model

| member | source | states |
|---|---|---|
| `Text.Trim` | script.js:93 | `trim` leaves no whitespace at either end (the ECMAScript WhiteSpace and LineTerminator code points) and introduces no character absent from its argument |
| `Text.TrimIsSlice` | script.js:108 | what `trim` returns is a contiguous slice of its argument, and everything cut off before and after that slice is whitespace |
| `Text.Split` | script.js:93 | `split(',')` always yields at least one piece, no piece contains the separator, and there is exactly one piece iff the text has no separator |
| `Text.Join` | script.js:97 | `parts.join(sep)`, here and for the diets at script.js:236: no parts give "", one part gives that part, and otherwise the text starts with the first part (see `JoinEndsWithLast`, `JoinAppend`, `JoinSplit`) |
| `Text.JoinEndsWithLast` | script.js:97 | the joined text of one or more parts ends with the last part |
| `Text.JoinAppend` | script.js:97 | joining one more piece onto a non-empty list appends the separator and that piece to the joined text |
| `Text.JoinSplit` | script.js:93 | joining the pieces of a split with the same separator gives back the original text |
| `Ingredients.Clean` | script.js:93 | trimming the pieces and dropping the empty ones leaves only non-empty trimmed entries, comma-free when the pieces were, and never more entries than pieces |
| `Ingredients.Entries` | script.js:93 | every entry read from the input field is non-empty, trimmed and free of commas |
| `Ingredients.CleanMembers` | script.js:93 | a string is kept by the trim-and-filter exactly when it is non-empty and the trim of one of the pieces |
| `Ingredients.EntriesMembers` | script.js:93 | the entries of the field are exactly the non-empty trims of its comma-separated pieces |
| `Ingredients.Merged` | script.js:93-100 | a tag already among the entries (exact, case-sensitive) leaves the field byte-for-byte unchanged; with no entries the field becomes the tag alone; otherwise it becomes the entries joined with ", ", then ", " and the tag |
| `Ingredients.MergedOfJoin` | script.js:95-98 | on a field of well-formed entries joined with ", ", a new tag is appended after ", " and the earlier text is kept as it was |
| `Ingredients.EntriesOfEntry` | script.js:99 | a field holding one well-formed entry reads back as exactly that entry |
| `Ingredients.EntriesAfterFirst` | script.js:97 | (helper for `EntriesOfJoin`) an entry followed by ", " reads back as that entry followed by the entries of the rest |
| `Ingredients.EntriesOfJoin` | script.js:97 | any list of well-formed entries, the empty one included, joined with ", " reads back as the same entries, in order |
| `Ingredients.EntriesOfMerged` | script.js:93-100 | after the merge of a well-formed tag, the field's entries are the old entries in their order with the tag appended when absent, and the old entries when present |
| `Ingredients.MergedIdempotent` | script.js:95-101 | for a non-empty, trimmed, comma-free tag, clicking the same quick tag twice has the same effect as clicking it once |
| `Markup.Strip` | script.js:291 | the `<[^>]*>` replacement never lengthens the text, keeps only characters of the input, and leaves no `<` followed later by a `>` |
| `Markup.StripPlain` | script.js:291 | text without `<` passes through unchanged, in order, whatever follows it |
| `Markup.StripTag` | script.js:291 | a `<` together with everything up to the first `>` after it is removed |
| `Markup.StripUnclosed` | script.js:291 | text without any `>` is left as it is, including a stray `<` |
| `Markup.StripNoMarkup` | script.js:291 | text the pattern cannot match is left as it is |
| `Markup.StripIdempotent` | script.js:291 | stripping twice is stripping once |
| `Markup.CleanSummary` | script.js:289-293 | the result holds at most 303 characters and no markup; stripped text of at most 300 characters is returned unchanged; longer text becomes its first 300 characters followed by "..." |
| `Markup.BreakLines` | script.js:297 | after newlines become `<br>`, no newline remains and nothing is shortened |
| `Markup.CleanInstructions` | script.js:295-298 | the cleaned instructions hold no newline and are at least as long as the stripped text |
| `Markup.NoBreakAfterOpen` | script.js:297 | (helper for `UnbreakBreakLines`) text opening with `<` whose fourth character is not `>` cannot render to something opening with `<br>` |
| `Markup.NoBreakAtStart` | script.js:297 | (helper for `UnbreakBreakLines`) markup-free text that does not start with a newline does not render to something starting with `<br>` |
| `Markup.UnbreakBreakLines` | script.js:297 | for markup-free text, reading each `<br>` back as a newline undoes the line breaking |
| `Markup.CleanInstructionsRoundTrip` | script.js:295-298 | tags are stripped before newlines become `<br>`, so each inserted `<br>` stands for exactly one newline of the stripped text and none is removed |
| `Badges.BadgeList` | script.js:176-179 | exactly min(n, 3) name badges, the first names in input order, and one "+(n-3) more" badge, placed after them, iff n > 3 |
| `Badges.RenderIngredients` | script.js:169-199 | an absent or empty ingredient list renders nothing; otherwise the section of the given kind holds the badge list |
| `Badges.AccountedAppend` | script.js:176-179 | (helper for `BadgesAccountForAll`) the ingredients two badge lists stand for add up when the lists are concatenated |
| `Badges.AccountedNames` | script.js:176-178 | (helper for `BadgesAccountForAll`) a list of name badges stands for one ingredient per badge |
| `Badges.BadgesAccountForAll` | script.js:176-179 | the names shown plus the "+N more" count equal the number of ingredients |
| `Recipes.ShownNumber` | script.js:159 | a number is shown exactly when it is present and not zero, and "N/A" otherwise |
| `Recipes.RenderCard` | script.js:153-166 | a card carries its recipe's id, title and image, the ready time as `ShownNumber` shows it, the used count or 0, and the used and missing badge sections as `RenderIngredients` renders them, each present exactly when its list is non-empty |
| `Recipes.RenderCards` | script.js:153-166 | one card per recipe, in response order |
| `Recipes.ChooseInstructions` | script.js:262-273 | the steps of the first structured instruction iff there is one; otherwise the cleaned free text iff it is non-empty, which then holds no newline and reads back to the stripped text; otherwise the placeholder |
| `Recipes.RenderDetail` | script.js:223-287 | the title and image are the recipe's; ready time and servings are shown as `ShownNumber` shows them; the summary section appears iff the summary is non-empty and then holds its `CleanSummary`, markup-free and at most 303 characters long; diets appear iff there are any, joined with ", "; the ingredient grid lists the `original` lines iff the list is present, even when empty, and holds the no-information placeholder otherwise; the instructions follow `ChooseInstructions`; the source link appears iff the URL is non-empty, and is then that URL |
| `Navigation.PageId` | script.js:81 | the id of page `name` is `name` followed by "-page" |
| `Navigation.PageIdInjective` | script.js:81 | different page names give different page ids |
| `Navigation.SingleMatch` | script.js:76-84 | among distinct page ids, exactly one page is active after the target is shown when it exists, and none otherwise |
| `Finder.RecipeFinder.constructor` | script.js:2-11 | a new controller holds no recipes, has `currentPage` "home", and has shown the home page |
| `Finder.RecipeFinder.ToggleSidebar` | script.js:57-64 | the sidebar is set to the given value, or flipped when none is given |
| `Finder.RecipeFinder.ShowPage` | script.js:66-89 | each nav item is active iff its `data-page` is the name; a page is active iff it is `name-page`; `currentPage` becomes the name iff that page exists, else keeps its value; at most one page is active |
| `Finder.RecipeFinder.NavItemClicked` | script.js:19-25 | clicking a nav item shows its page and closes the sidebar |
| `Finder.RecipeFinder.AddIngredient` | script.js:91-104 | the input field becomes the merge of its old value with the tag, and is unchanged when the tag is already an entry |
| `Finder.RecipeFinder.ShowLoading` | script.js:300-307 | the loading indicator takes the given value |
| `Finder.RecipeFinder.DisplayRecipes` | script.js:140-167 | a null or empty list clears the cards, shows the "no results" marker and keeps `currentRecipes`; a non-empty list hides the marker, becomes `currentRecipes` and is shown as one card per recipe in order |
| `Finder.RecipeFinder.SearchRecipes` | script.js:106-138 | an empty trimmed input raises a notice and changes nothing, with no request; otherwise the request uses the trimmed text, the results page is shown, the response is displayed with the subtitle on success, a notice is raised and the results are kept on failure, and the loading indicator is switched on and then off on both paths |
| `Finder.RecipeFinder.RunSearch` | script.js:115-137 | for a non-empty query: the indicator is switched on and then off, the results page is shown, and the response is handled as `ShowSearchResponse` states |
| `Finder.RecipeFinder.ShowSearchResponse` | script.js:118-134 | a response body is displayed as `DisplayRecipes` states and the subtitle names the query; a failed request raises a notice and leaves cards, marker, recipes and subtitle as they were |
| `Finder.RecipeFinder.ShowRecipeDetails` | script.js:201-221 | a recipe in the response is rendered and the details page shown; a failed request or a null body raises a notice and changes neither the view nor the page; the loading indicator is switched on and then off on every path |

## Left out

- DOM lookups and event wiring (`bindEvents`, `getElementById`, `querySelectorAll`, `addEventListener`) are left out. Only their effect on the abstract state is modelled; the nav-item click handler is `NavItemClicked`. The CTA buttons, the back-to-results button and the search form only call `showPage` or `searchRecipes`.
- `window.scrollTo` and `input.focus` are left out: they change neither the modelled state nor any result.
- HTTP and JSON parsing are not modelled. The endpoints are function parameters returning a parsed body or a failure. A search body other than null or an array of recipe records is not modelled. A falsy body, or an object whose `length` is 0, takes the no-results path. Any other non-array body, or an array holding null, hides the marker and replaces `currentRecipes` (script.js:150-151), then throws while rendering, so a notice is raised and the cards and subtitle stay as they were. Nor is a structured instruction without `steps`.
- `encodeURIComponent` is not modelled: `SearchRecipes` reports the trimmed text it searches for, before URL encoding.
- HTML template text, image `onerror` fallbacks and the inline `onclick` on each card are not modelled. Cards and the detail view are values holding what the HTML shows.
- `alert`, `showError` and `console.error` are not modelled as output. The notices are `Alert` values returned by the methods.
- Overlapping asynchronous requests are not modelled. Each async method is one atomic step, so the source's "last response wins" behaviour is not captured.
- `getElementById` could find an element outside the `.page` set whose id is `name-page`. The model assumes the pages are the only such elements and that their ids are distinct, as HTML requires.
- The constructor takes the nav items, page ids and input text as parameters. The initial sidebar, loading indicator, "no results" marker and containers come from the HTML, which is not part of this model: they start closed, hidden and empty.
- A quick tag whose `data-ingredient` attribute is missing (`null`) is not modelled. Tags are strings.
- Ingredients.MergedIdempotent: holds only for tags that are non-empty, trimmed and comma-free, as the page's `data-ingredient` values are. For other tags the source is not idempotent: on the field "a" the tag " salt" gives "a,  salt", and a second click gives "a, salt,  salt".
- Markup.CleanSummary: counts characters as Unicode scalar values. JavaScript's `length` and `substring` count UTF-16 code units, so text with characters outside the Basic Multilingual Plane is cut at a different place.
