# MixMaster session engine, in Dafny

A model of the rule engine inside the `App` component of the MixMaster
cocktail browser (`v4/src/App.js`). The component holds one session of
state:
- the fetched drink list (`cocktails`);
- the search box text;
- the user's bar of ingredients (`myBar`);
- the favorite drinks;
- the active filter category;
- a loading flag.

From that state it derives what the user sees. The model covers these
parts:

- **Recipe records** (`Recipes.Cocktail`). A record carries its ingredients
  in the numbered fields `strIngredient1` .. `strIngredient15` and its measures
  in `strMeasure1` .. `strMeasure15`. A field may hold a string or be
  null/undefined. JavaScript truthiness applies (`Js.Truthy`), so null,
  undefined and `""` are all skipped.
- **Can-make check.** `Recipes.CanMakeCocktail` is the imperative loop over
  the 15 slots. `Recipes.CanMake` is its specification. Each truthy
  ingredient field, lower-cased, must equal some lower-cased bar entry.
- **Filter pipeline.** `Recipes.FilteredCocktails` is a stable filter keyed
  on the category string `canMake`, `alcoholic`, `nonAlcoholic` or anything
  else.
- **Modal ingredient lines.** `Recipes.ModalIngredients` returns up to 15
  `(name, measure)` pairs in slot order. A falsy measure becomes `''`.
- **Toggles.** These are pure list updates (`Toggles.ToggledBar`,
  `Toggles.ToggledFavorites`) plus the class methods that assign them.
  The bar is matched by exact string. The favorites are whole records
  matched by `idDrink`.
- **Session.** The class `Session.App` has one field per piece of state.
  Its handlers are the search box's change handler, fetch-all, search,
  setting the filter, the two toggles, the remove button and the Enter-key
  guard of the ingredient input. A service call and its answer are one
  step: the answer is a `Response` parameter (`Success` with a drinks list
  or null, or `Failure`). `SearchCocktails` and `OnSearchInput` also return
  the `Request` they made.

The class keeps an invariant (`Session.App.Valid`) across every handler:
- favorites never repeat an id;
- every bar entry is trimmed and non-empty;
- no string is on the bar twice.

The bar part holds because `toggleBarIngredient` has only two callers.
The Enter handler passes trimmed non-blank text, and the remove button
passes an entry already on the bar. `Session.App.ToggleBarIngredient`
requires exactly that of its argument.

The model follows the code as written; in particular:
- The can-make check lower-cases but does not trim recipe ingredients or
  bar entries (`Recipes.CanMakeDoesNotTrim`).
- The alcoholic test compares the raw `strAlcoholic` string with
  `"Alcoholic"` and `"Non alcoholic"`.
- An unrecognised category value shows the whole list.
- Favorites hold whole drink records, matched by `idDrink`.
- The bar toggle matches case-sensitively, while the can-make check does
  not (`Toggles.ToggledBarIsCaseSensitive`).

## Model

| member | source | states |
|---|---|---|
| `Js.TrimSlice` | v4/src/App.js:258-259 | `trim()` returns a contiguous slice of its input with only ECMAScript white space removed at the ends. The slice has no white space at either end. It is empty exactly when the input is all white space. |
| `Js.TrimIdempotent` | v4/src/App.js:258-259 | Trimming already-trimmed text changes nothing, so the value the Enter handler toggles is a fixed point of `trim()`. |
| `Js.ToLowerFacts` | v4/src/App.js:69-72 | Lower-casing keeps the length and leaves no ASCII capital. It is idempotent. Two strings lower-case alike exactly when they agree letter by letter up to case. |
| `Js.FilterIsSubsequence` | v4/src/App.js:76-87 | `filter` returns an order-preserving subsequence of its input. |
| `Js.FilterCount` | v4/src/App.js:76-87 | `filter` keeps every copy of an element that satisfies the predicate and no copy of any other element. |
| `Recipes.PresentSlotsSpec` | v4/src/App.js:67-69 | The slot scan keeps exactly the slots 1..15 whose ingredient field is truthy, each once, in increasing order, so at most 15. |
| `Recipes.CanMakeCocktail` | v4/src/App.js:65-74 | The loop that collects lower-cased truthy ingredients, followed by `every`/`some` over the bar, returns exactly the can-make specification. |
| `Recipes.CanMakeIff` | v4/src/App.js:65-73 | Can-make holds iff every truthy ingredient field among the 15 equals some bar entry after lower-casing both. Bar order and duplicates do not matter, and nothing is trimmed. |
| `Recipes.CanMakeVacuous` | v4/src/App.js:65-73 | A recipe whose 15 ingredient fields are all falsy can be made from any bar, including the empty one. |
| `Recipes.CanMakeEmptyBar` | v4/src/App.js:71-73 | With an empty bar, a recipe with at least one truthy ingredient field cannot be made. |
| `Recipes.CanMakeMonotone` | v4/src/App.js:71-73 | If every entry of one bar has a case variant in another, whatever the first bar can make the second can too. So reordering, repeating or re-casing bar entries changes nothing. |
| `Recipes.CanMakeDoesNotTrim` | v4/src/App.js:69-72 | An ingredient `"Gin "` does not match a bar holding `"gin"`: recipe ingredients are lower-cased, never trimmed. |
| `Recipes.EmptyBarExample` | v4/src/App.js:65-73 | With an empty bar, a vodka recipe cannot be made. |
| `Recipes.ModalIngredients` | v4/src/App.js:117-125 | The modal list has one line per truthy ingredient slot, in slot order, at most 15. Each line holds that slot's ingredient and its measure, or `''` when the measure is falsy. |
| `Recipes.FilterPipelineStable` | v4/src/App.js:76-87 | For every category, the visible list is an order-preserving subsequence of the fetched list. Each record appears as often as in the fetched list when the category's rule accepts it, and not at all otherwise. |
| `Recipes.FilterCategoryRules` | v4/src/App.js:76-87 | `all` and any unrecognised category return the list unchanged. `alcoholic` keeps exactly `strAlcoholic == "Alcoholic"`. `nonAlcoholic` keeps exactly `strAlcoholic == "Non alcoholic"`. `canMake` keeps exactly the makeable records. Any other `strAlcoholic` value is in neither alcoholic list. |
| `Recipes.ThreeFiltersExample` | v4/src/App.js:76-87 | With a gin and tonic, a soda and a bar of gin, tonic and soda, `canMake` shows both drinks, `alcoholic` only the first and `nonAlcoholic` only the second. |
| `Toggles.ToggledBarSpec` | v4/src/App.js:57-63 | Toggling flips the exact string's membership. A present string loses every copy, while the other entries keep their multiplicity and order. An absent string is appended at the end. |
| `Toggles.ToggledBarTwice` | v4/src/App.js:57-63 | Toggling the same string twice restores its membership. When it was absent, the whole bar is restored. |
| `Toggles.ToggledBarIsCaseSensitive` | v4/src/App.js:58-61 | Toggling `"gin"` next to `"Gin"` appends a second entry, although the can-make check treats the two as the same ingredient. |
| `Toggles.ToggledBarKeepsClean` | v4/src/App.js:238-261 | A bar of trimmed non-empty entries stays so when the remove button toggles an existing entry or the Enter handler toggles trimmed non-blank text. |
| `Toggles.ToggledBarKeepsDistinct` | v4/src/App.js:57-63 | If no string is on the bar twice before a toggle, none is after it: the toggle appends only absent strings. |
| `Toggles.ToggledFavoritesSpec` | v4/src/App.js:48-55 | Toggling flips whether the drink's `idDrink` is among the favorites. The favorites with other ids stay the same records in the same order. An absent drink is appended. |
| `Toggles.ToggledFavoritesKeepUnique` | v4/src/App.js:48-55 | If favorite ids were unique before a toggle, they are unique after it. |
| `Toggles.ToggledFavoritesTwice` | v4/src/App.js:48-55 | Toggling the same drink twice restores whether its id is a favorite. When it was not, the whole list is restored. |
| `Session.App.constructor` | v4/src/App.js:4-11 | The initial state: empty lists, empty search text, category `all`, loading on, invariant established. |
| `Session.App.FetchCocktails` | v4/src/App.js:18-29 | A body replaces the list with its drinks, or with `[]` when `drinks` is null. A failure keeps the old list. Loading always ends false. |
| `Session.App.SearchCocktails` | v4/src/App.js:31-46 | An empty term is a fetch-all and any other term a search by that term. The list is replaced or kept as in fetch-all, and loading ends false. |
| `Session.App.OnSearchInput` | v4/src/App.js:172-175 | The search box records the text, issues the request for it and applies the answer. Bar, favorites and filter are untouched, and the invariant is kept. |
| `Session.App.SetFilterCategory` | v4/src/App.js:186-210 | A filter button sets the category and nothing else. The visible list becomes the fetched list filtered by the new category. |
| `Session.App.ToggleFavorite` | v4/src/App.js:48-55 | The favorites become the toggled list and the id's membership flips. Uniqueness of ids is kept. |
| `Session.App.ToggleBarIngredient` | v4/src/App.js:57-63 | The bar becomes the toggled list and the string's membership flips. Given what its two callers pass, the invariant is kept. |
| `Session.App.RemoveBarIngredient` | v4/src/App.js:238-246 | The remove button next to an entry removes every copy of it and keeps the invariant. |
| `Session.App.OnIngredientKey` | v4/src/App.js:257-261 | Only Enter with non-blank text changes the bar, toggling the trimmed text and clearing the input. Any other key changes nothing. The invariant is kept. |

## Left out

- Rendering is not modelled: the JSX, the `CocktailCard` and `CocktailModal` markup and the `styles` object have no logic beyond display. The `isFavorite` test on a card is the same `some` as `Toggles.HasId`.
- The network calls are not modelled: `fetch`, `response.json()` and building the URL (the term is interpolated without encoding). The service's answer is the `Response` parameter instead.
- Overlapping requests are not modelled. Each request and its answer are one atomic step, so a late answer overwriting a newer list is not represented.
- `console.error` logging is left out; it is observability only.
- React wiring is left out. That covers `useState`, `useEffect`, the mount-time fetch (`FetchCocktails` after the constructor is that step), the active tab and the selected drink for the modal.
- `Js.LowerChar` maps only the ASCII capitals. JavaScript's `toLowerCase` applies full Unicode case mapping, which is not modelled.
- Record fields hold strings or null/undefined. Other JavaScript values (numbers, booleans) that the service never sends are not modelled.
- Session.App.ToggleBarIngredient: requires an entry already on the bar or trimmed non-empty text. Those are the only arguments its two callers (the remove button and the Enter handler) pass, so other arguments are not modelled.
- While a request is in flight, `loading` is true. Because each request is atomic, the model shows only the final `false`.
