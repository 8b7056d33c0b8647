# Transport app: home list and login validation, modelled in Dafny

This project models the two pieces of logic of a small React Native transport
app.

- **Home screen** (`components/Home.jsx`). The screen fetches the bus makes of a
  vehicle catalogue and maps each raw record `{MakeId, MakeName}` to a display
  item. The search box filters the items by a case-insensitive substring match
  on the title. Tapping an item flips its `clicked` flag, and the wrapping
  provider's counter moves up or down by one per flip.
- **Login screen** (`components/Login.jsx`). `validateForm` checks the username
  and password and sets two error messages. `handleSubmit` navigates to `Home`
  with the username only when the form is valid.

Modules:

- `Wrappers` (`wrappers.dfy`) defines `Option`.
- `Text` (`text.dfy`) holds the JavaScript string operations the screens use:
  - `trim`, with the exact ECMAScript WhiteSpace and LineTerminator set;
  - `toLowerCase`, ASCII letters only;
  - `includes`, a left-to-right substring search, proved equal to "occurs as a
    contiguous piece";
  - `length`, counted in UTF-16 code units.
- `Home` (`home.dfy`) holds the pure parts as functions: record mapping,
  filter, toggle and counts, with their lemmas. It also holds the class
  `HomeScreen`. Its fields are `items`, `filtered`, `loading`, `query` and
  `clickCount`, plus the `username` route parameter. Its invariant `Valid()`
  says three things: `clickCount` equals the number of selected items;
  `filtered` is the filter of `items` by `query`; and while loading the list
  is empty and no query has been typed. The constructor establishes it, and
  `OnFetchResult`, `SetSearchQuery` and `HandleItemClick` keep it. The
  provider's `IncrementClickCount` and `DecrementClickCount` break it when
  called on their own. The model calls them only from `HandleItemClick`'s
  loop, once per flipped item, as the source does
  (`components/Home.jsx:59-65, 125-131`). The counter invariant depends on
  that pairing.
- `Login` (`login.dfy`) holds the class `LoginScreen`, with the fields
  `username`, `password` and `errors`. `ValidateForm` builds its result step
  by step, as the source does. `HandleSubmit` returns the navigation as an
  `Option<Route>`.

Inputs that stand for I/O and randomness:

- The outcome of the HTTP request is an `Option<seq<RawRecord>>`. `None` stands
  for every outcome that lands in the `.catch` branch (`components/Home.jsx:42-45`):
  a network error, an HTTP error status, a payload without a `Results` array,
  and a `null` record, which makes `item.MakeId` throw inside `.then`.
- The random `price` and `roomTime` strings of the `i`-th record are
  `draw(i)`, a function parameter of type `nat -> Filler`.

React's setters and effects are applied synchronously. Every method that
changes `items` or `query` also recomputes `filtered`. The effect at
`components/Home.jsx:48-53` does the same: it runs after the first render and
after every render in which `searchQuery` or `items` changed, as its dependency
array (line 53) says.

Facts about the code that the model keeps:

- A click flips every item whose id matches; ids are not checked to be unique
  (`components/Home.jsx:57-58`).
- A failed fetch only ends loading; no error screen is shown and the list stays
  empty (`components/Home.jsx:42-45`).
- The counter always equals the number of selected items, so it is never
  negative.

## Model

| member | source | states |
|---|---|---|
| Text.Trim | components/Login.jsx:59-65 | `trim()` returns a contiguous piece of the input; everything cut off on either side is whitespace; the piece does not start or end with whitespace |
| Text.TrimStart | components/Login.jsx:59-65 | the start half of `trim()`: the result is a suffix of the input; every dropped character is whitespace; the result does not start with whitespace |
| Text.TrimEnd | components/Login.jsx:59-65 | the end half of `trim()`: the result is a prefix of the input; every dropped character is whitespace; the result does not end with whitespace |
| Text.TrimEmptyIff | components/Login.jsx:59-65 | `s.trim() === ''` holds exactly when every character of `s` is whitespace |
| Text.IsWhitespace | components/Login.jsx:59-65 | the characters `trim()` removes (ECMAScript WhiteSpace and LineTerminator); none of them is an ASCII letter or digit |
| Text.Lower | components/Home.jsx:50 | `toLowerCase()` keeps the length, lower-cases each character in place, and leaves no upper-case ASCII letter |
| Text.ToLowerChar | components/Home.jsx:50 | the result is never an upper-case ASCII letter; A-Z map to a-z (code point + 32); every other character is unchanged |
| Text.LowerIdempotent | components/Home.jsx:50 | lower-casing twice equals lower-casing once |
| Text.LowerSlice | components/Home.jsx:50 | lower-casing commutes with slicing |
| Text.Includes | components/Home.jsx:50 | every string includes `''`; a string includes only strings no longer than itself |
| Text.IncludesIff | components/Home.jsx:50 | `s.includes(t)` holds exactly when `t` occurs at some index of `s` as a contiguous piece |
| Text.LowerPreservesIncludes | components/Home.jsx:49-51 | if `s` contains `t`, then the lower-cased `s` contains the lower-cased `t` |
| Text.Utf16Units | components/Login.jsx:68 | one character takes one or two UTF-16 code units |
| Text.Utf16Length | components/Login.jsx:68 | `password.length` is between the number of characters and twice that; it equals the number of characters when all of them are in the Basic Multilingual Plane |
| Home.MakeItems | components/Home.jsx:30-37 | one item per raw record, in the same order; the item's `id` is `MakeId` and its `title` is `MakeName`; the description is "Vehicle Type: Bus"; price and time come from that record's random draw; `clicked` is false |
| Home.ToItem | components/Home.jsx:31-36 | the item built from one record has the record's `MakeId` as id and `MakeName` as title, the description "Vehicle Type: Bus", the record's random price and time, and `clicked` false |
| Home.Matches | components/Home.jsx:49-51 | the filter callback holds exactly when the lower-cased query occurs as a contiguous piece of the lower-cased title; an empty query matches every item |
| Home.FilterItems | components/Home.jsx:48-53 | the visible list is no longer than the full list; an item is visible iff it is in the list and its lower-cased title includes the lower-cased query |
| Home.FilterExactly | components/Home.jsx:49-51 | the visible list is a subsequence of the full list (order preserved); every matching item appears as often as in the list, and every other item zero times |
| Home.FilterEmptyQuery | components/Home.jsx:49-50 | an empty query returns the full list unchanged |
| Home.FilterQueryCaseInsensitive | components/Home.jsx:50 | lower-casing the query first changes nothing |
| Home.LiteralMatchIsShown | components/Home.jsx:49-51 | an item whose title literally contains the query is visible |
| Home.Flip | components/Home.jsx:57-67 | the `map` callback negates `clicked` on an item whose id equals the clicked id and keeps every other field; an item with another id is unchanged |
| Home.Toggled | components/Home.jsx:56-68 | every item with the clicked id has `clicked` negated; every other item is unchanged; length and order are kept |
| Home.ToggleCount | components/Home.jsx:59-65 | after a click, the number of selected items is the old number, plus the matching items that were unselected, minus the matching items that were selected |
| Home.ToggleSwapsCounts | components/Home.jsx:59-65 | after a click, the matching items with flag `b` are exactly the ones that had flag `!b` before |
| Home.ToggleUnknownId | components/Home.jsx:56-68 | clicking an id no item has leaves the list unchanged and moves the counter by zero |
| Home.ToggleTwice | components/Home.jsx:59-65 | clicking the same id twice restores the list |
| Home.FilterToggleCommute | components/Home.jsx:48-69 | the visible list after a click is the old visible list with the same click applied |
| Home.ScenarioVolvoFord | components/Home.jsx:30-65 | records Volvo (1) and Ford (2) give two unselected items; "vo" shows exactly Volvo; one click on id 1 gives one selected item, a second click gives none |
| Home.HomeScreen.Valid | components/Home.jsx:122-131 | the screen invariant implies that the counter is never negative |
| Home.HomeScreen.constructor | components/Home.jsx:19-22 | on mount: empty lists, `loading` true, empty query, counter 0 (the provider's initial state), and the invariant holds |
| Home.HomeScreen.IncrementClickCount | components/Home.jsx:125-127 | the counter goes up by exactly one; nothing else changes |
| Home.HomeScreen.DecrementClickCount | components/Home.jsx:129-131 | the counter goes down by exactly one; nothing else changes |
| Home.HomeScreen.OnFetchResult | components/Home.jsx:25-46 | on success the list is the mapped records; on failure it stays empty; either way the visible list equals the list, loading is false, the counter is unchanged and the invariant holds |
| Home.HomeScreen.SetSearchQuery | components/Home.jsx:48-53 | the query is stored; the visible list is recomputed from the unchanged full list |
| Home.HomeScreen.HandleItemClick | components/Home.jsx:55-70 | the list becomes the toggled list; the counter moves by +1 per item selected and -1 per item unselected; the visible list is toggled the same way; the invariant "counter = number of selected items" is preserved |
| Login.IsBlank | components/Login.jsx:59-65 | `x.trim() === ''` holds exactly when every character of `x` is whitespace |
| Login.AcceptedForm | components/Login.jsx:51-75 | the form is accepted exactly when the username has a non-whitespace character, the password has one, and the raw password has at least 6 UTF-16 code units; an accepted password has at least 3 characters |
| Login.SixSpacesAreBlank | components/Login.jsx:65-70 | six spaces are blank although their length is 6, so they get the "required" message |
| Login.LoginScreen.constructor | components/Login.jsx:19-24 | both fields and both error messages start empty |
| Login.LoginScreen.SetUsername | components/Login.jsx:132 | the username field holds the typed text |
| Login.LoginScreen.SetPassword | components/Login.jsx:143 | the password field holds the typed text |
| Login.LoginScreen.ValidateForm | components/Login.jsx:51-75 | valid iff the trimmed username and trimmed password are non-empty and the raw password has at least 6 code units; the username message is "Username is required" iff the username is blank, else ''; the password message is "Password is required" when blank, else "Password must be at least 6 characters" when shorter than 6, else ''; valid iff both stored messages are '' |
| Login.LoginScreen.HandleSubmit | components/Login.jsx:77-81 | a navigation to 'Home' carrying exactly the entered username happens iff the form is valid; otherwise there is none; either way the stored messages are those `validateForm` computes (required before too short), and they are both '' iff there is a navigation |

## Left out

- The HTTP GET to the catalogue endpoint (`components/Home.jsx:27-28`) is network I/O. Its outcome is an input of `OnFetchResult`.
- Raw records are assumed to carry a numeric `MakeId` and a string `MakeName`. If `MakeName` is `null` or not a string, the source's `.then` branch still succeeds, and then the filter effect throws on `item.title.toLowerCase()` (`components/Home.jsx:50`) with no handler; that crash is not modelled.
- `console.error` logging on a failed fetch (`components/Home.jsx:43`) is left out.
- `Math.random()` and `toFixed` for `price` and `roomTime` (`components/Home.jsx:34-35`) are floating point and random. They are supplied as opaque strings by `draw`.
- Text.Lower: only the ASCII letters A-Z are lower-cased. The full Unicode case mapping of `toLowerCase` is not modelled.
- Text.Utf16Length: counts code units from Unicode scalar values. Lone surrogates, which a JavaScript string can hold, cannot occur in a Dafny string.
- React Context (`components/Home.jsx:15, 23, 134`), the batching and asynchrony of `useState` setters, and the scheduling of `useEffect` are not modelled. One class updated synchronously stands in for them.
- React's development-mode double call of state updater functions is not modelled. It would repeat the counter side effects inside `handleItemClick`.
- A fetch that resolves after the screen unmounts is not modelled.
- Home.HomeScreen.SetSearchQuery: requires that loading is over, because the search field is rendered only then (`components/Home.jsx:72-91`).
- Rendering is not modelled: JSX, `FlatList`, key extraction, the "Hi, username" banner, the loader, the styles, the keyboard handling and `Dimensions`.
- The Animated fade and spring handlers (`components/Login.jsx:26-49`) are animation only.
- The "Register" link (`components/Login.jsx:163`) only navigates. `RegistrationForm` is not part of this model.
- `App.tsx` only wires the navigation stack.
