# Browser start page, modelled in Dafny

This is a model of `script.js`, the script behind a single-page browser start
page. The page has:

- a clock showing `HH:MM`;
- a search box that sends the trimmed query, percent-encoded, to one of four
  search engines;
- a grid of quick-link tiles, with an add-link modal, kept in the browser's
  local storage under the key `quickLinks`;
- a page background that is remembered under the key `background`.

The model has these modules:

- `Text`: the string functions the script relies on.
  - `String.prototype.trim`, with the ECMAScript whitespace and
    line-terminator set.
  - `String(n)` on a natural number and `padStart`.
  - The ASCII part of `toUpperCase`.
- `UriEncoding`: `encodeURIComponent`.
  - UTF-8, then `%XX` with upper-case hexadecimal digits for every character
    outside `A–Z a–z 0–9 - _ . ! ~ * ' ( )`.
  - Its partner is a decoder in the manner of `decodeURIComponent`.
- `Clock`: the time half of `updateTime`.
- `Search`:
  - the `searchEngines` table;
  - the target `performSearch` navigates to.
- `Links`: the grid as a sequence of tiles and the list `saveLinks` stores.
  - A default tile comes with the markup.
  - A custom tile is added at run time.
- `StartPage`: one class, `Page`, with one method per handler or
  top-level function of the script.
  - Its fields are the clock text, the grid, the two storage keys, the value
    last assigned to the body's background style, the modal's open state,
    the modal's two inputs, the last navigation, and whether local storage
    accepts writes.
  - `localStorage.setItem` throws when the store is full or blocked. The
    model follows that exception from `saveLinks` and `changeBackground` to
    the save button's `catch`, or out of the handler.
  - `SaveLinks` and `LoadLinks` are loops over the grid and the stored list.
    They are proved against `Links.CustomLinks` and `Links.RestoredTiles`.

Some inputs come from outside the script's own logic. They are parameters of
the model:

- the hour and minute read from the clock;
- the engine the selector shows;
- the key pressed;
- whether a click lands on the modal backdrop itself;
- the verdict of `new URL(...)` (the `parses` function given to `SaveModal`).

## What the code does not check

`script.js` leaves these cases open, and the model does the same:

- **No scheme check.** The save button accepts any URL that `new URL` parses.
  Nothing restricts it to `http`/`https`, so `SaveModal` takes the parser's
  verdict as given.
- **No check on click.** A tile's click handler navigates to its stored URL
  without validating it again (`ClickTile`).
- **Corrupt storage is not handled.** `loadLinks` calls `JSON.parse` without
  a guard. The model therefore starts from the already-parsed list and makes
  up no fail-soft path.
  - In the script, a throw inside `loadLinks` stops the start-up code at
    script.js:176. Such a throw comes from `JSON.parse` on a corrupt value,
    or from `charAt` on a stored record whose title is not a string.
  - The `keydown` listener of script.js:179-190 is then never registered, so
    Escape no longer closes the modal.
- **Unknown engine.** The engine key is not checked.
  - A key that is neither in the table nor a property of `Object.prototype`
    makes the target start with the text `undefined`, as
    `SearchUnknownEngine` shows.
- **Empty background.** `loadBackground` tests the stored value for
  truthiness.
  - A stored empty string is therefore ignored like a missing key
    (`LoadBackground`).

## Model

| member | source | states |
|---|---|---|
| Text.Trim | script.js:29 | the trimmed text is empty exactly when the input is all whitespace; otherwise neither of its ends is whitespace |
| Text.TrimDecomposes | script.js:29 | the input is some whitespace, then the trimmed text, then some whitespace |
| Text.TrimSurrounded | script.js:29 | trimming strips exactly the whitespace around a core whose ends are not whitespace |
| Text.TrimIdempotent | script.js:29 | trimming twice is trimming once |
| Text.DecimalString | script.js:8-9 | `String(n)` is a non-empty run of decimal digits with no leading zero, one digit long exactly below ten |
| Text.DecimalRoundTrip | script.js:8-9 | reading the decimal text of `n` back gives `n` |
| Text.DecimalInjective | script.js:8-9 | distinct numbers have distinct decimal texts |
| Text.PadStart | script.js:8-9 | `padStart` leaves a long enough text alone; otherwise it brings the text to the width, with the original text as suffix and only the fill before it |
| Text.ToUpperChar | script.js:82 | a lower-case ASCII letter becomes its capital; any other character is unchanged |
| Clock.TwoDigits | script.js:8-9 | `String(n).padStart(2, '0')` is at least two characters: a zero and the digit below ten, the plain decimal text from ten on |
| Clock.FormatTime | script.js:8-10 | the clock text is at least five characters long |
| Clock.ParseTime | script.js:8-10 | the reader for `HH:MM` texts accepts two two-digit numbers, each below one hundred |
| Clock.ParseTimeFormatsBack | script.js:8-10 | every text the reader accepts is the clock text of the hour and minute it reads |
| Clock.TwoDigitsBelowHundred | script.js:8-9 | below one hundred the padded number is its tens digit and then its units digit |
| Clock.TwoDigitsNoTruncation | script.js:8-9 | a number of three or more digits is not cut to two |
| Clock.FormatTimeShape | script.js:8-10 | for a time of day the clock text is exactly the five characters `HH:MM` |
| Clock.FormatTimeReadBack | script.js:8-10 | parsing the clock text back as `HH:MM` gives the hour and minute it was made from |
| Clock.FormatTimeExamples | script.js:8-10 | midnight is `00:00`, 9:05 is `09:05` and 23:59 is `23:59` |
| UriEncoding.Utf8 | script.js:32 | a character has one to four UTF-8 bytes, and one exactly when it is ASCII |
| UriEncoding.HexDigit | script.js:32 | a hexadecimal digit is unreserved, a decimal digit below ten and an upper-case letter `A`–`F` from ten on |
| UriEncoding.Encode | script.js:32 | `encodeURIComponent` never shortens its input |
| UriEncoding.Decode | script.js:32 | the `decodeURIComponent`-style decoder never returns more characters than it reads |
| UriEncoding.EncodeSpace | script.js:32 | a space becomes `%20` |
| UriEncoding.EncodeAccent | script.js:32 | `é` becomes `%C3%A9` |
| UriEncoding.EncodeEmoji | script.js:32 | U+1F600 becomes `%F0%9F%98%80` |
| UriEncoding.Utf8RoundTrip | script.js:32 | each character's UTF-8 bytes have the right lead and continuation bytes and decode back to the character |
| UriEncoding.HexRoundTrip | script.js:32 | a hexadecimal digit reads back as its value |
| UriEncoding.EscapesRoundTrip | script.js:32 | a run of `%XX` escapes reads back as the bytes it was made from, leaving what follows it |
| UriEncoding.EncodeChar | script.js:32 | an unreserved character stays as it is; any other becomes at least one `%XX` escape |
| UriEncoding.EncodeAlphabet | script.js:32 | the encoding holds only unreserved characters and `%` |
| UriEncoding.EncodeConcat | script.js:32 | encoding distributes over concatenation |
| UriEncoding.EncodeIdentity | script.js:32 | encoding leaves a text unchanged exactly when every character is unreserved |
| UriEncoding.DecodeEncode | script.js:32 | decoding the encoding of any text gives the text back |
| UriEncoding.EncodeInjective | script.js:32 | distinct texts have distinct encodings |
| Search.EnginePrefix | script.js:19-24 | every prefix in the table is an `https://` URL ending in `=` |
| Search.PrefixText | script.js:32 | a key in the table reads as its prefix, any other key as the text `undefined` |
| Search.SearchTarget | script.js:26-35 | there is no target exactly when the query is blank; a target is longer than the engine's prefix |
| Search.SearchTargetCarriesQuery | script.js:29-32 | a target is the engine's prefix, then text that decodes to exactly the trimmed query and holds only unreserved characters and `%` |
| Search.SearchTargetInjective | script.js:29-32 | two queries reach the same target on one engine exactly when their trimmed forms agree |
| Search.QueryCannotAddParameters | script.js:32 | the encoded query holds no `&`, `#`, `=`, `?` or space |
| Search.SearchTargetTrimInvariant | script.js:29 | searching a query that is already trimmed goes to the same target |
| Search.SearchPaddedWord | script.js:26-35 | `" cats "` on Google goes to `https://www.google.com/search?q=cats` |
| Search.SearchBlankQuery | script.js:31 | a query of spaces navigates nowhere |
| Search.SearchUnknownEngine | script.js:32 | `cats` on an engine missing from the table goes to `undefinedcats` |
| Links.Icon | script.js:82 | an icon is empty for an empty title and is otherwise the title's first character, upper-cased |
| Links.NewTile | script.js:75-95 | the new tile is a custom tile with the given title and URL and its title's icon |
| Links.DefaultTiles | script.js:103-108 | the markup holds one default tile per URL, in order |
| Links.Persisted | script.js:64-69 | a tile adds a record exactly when it is a custom tile with a non-empty URL, and the record carries its title and URL |
| Links.CustomLinks | script.js:60-73 | the stored list is never longer than the grid, and each of its records has a non-empty URL |
| Links.RestoredTiles | script.js:54-56 | restoring gives one new tile per stored record, in stored order |
| Links.CustomLinksAppend | script.js:62-70 | the list stored for two grid parts is the concatenation of their lists |
| Links.CustomLinksSnoc | script.js:62-70 | appending one tile appends exactly what that tile persists |
| Links.DefaultTileNotPersisted | script.js:62 | taking a default tile out of the grid does not change the stored list |
| Links.OnlyDefaultsPersistNothing | script.js:62 | a grid of default tiles stores an empty list |
| Links.CustomLinksEmpty | script.js:62-70 | the stored list is empty exactly when no custom tile has a non-empty URL |
| Links.RestoreThenPersist | script.js:48-73 | restoring a list whose URLs are all present and saving again gives the same list |
| Links.EmptyUrlDroppedOnSave | script.js:67 | a restored record with an empty URL is not saved back |
| Links.ReloadPersistsSameList | script.js:48-73 | after a reload, the default tiles together with the restored list store exactly that list again |
| StartPage.Page.constructor | script.js:103-108 | the page starts with its default tiles and the storage it was given, writable or not; the modal is closed with empty inputs and nothing is navigated |
| StartPage.Page.UpdateTime | script.js:8-10 | the clock text becomes the padded `HH:MM` form of the given time |
| StartPage.Page.PerformSearch | script.js:26-35 | a blank query leaves the location as it was; any other navigates to the search target |
| StartPage.Page.SearchKeyPress | script.js:41-45 | only Enter with a non-blank query navigates, and it navigates to the search target |
| StartPage.Page.SaveLinks | script.js:60-73 | the `quickLinks` key is set to the custom links of the grid when storage accepts the write; when the write throws, the key keeps its old value and the failure is reported |
| StartPage.Page.AddLinkToGrid | script.js:75-100 | one new tile is appended and the earlier tiles are kept, whether the save then succeeds or not; with `save` and writable storage the grid's links are stored, otherwise the store is unchanged; it fails exactly when it saves and the write throws |
| StartPage.Page.LoadLinks | script.js:48-58 | with nothing stored the grid is unchanged; otherwise the restored tiles are appended in order and the store is left as it was |
| StartPage.Page.ClickTile | script.js:91-93 | a click on any tile, custom or default, navigates to that tile's URL with no check |
| StartPage.Page.OpenModal | script.js:118-123 | the modal opens with both inputs empty |
| StartPage.Page.SetTitleInput | script.js:115 | the title input holds what was typed |
| StartPage.Page.SetUrlInput | script.js:116 | the URL input holds what was typed |
| StartPage.Page.CancelModal | script.js:125-127 | cancelling closes the modal |
| StartPage.Page.SaveModal | script.js:129-145 | the missing-field alert exactly when a trimmed input is empty; the invalid-URL alert exactly when both are present and either the parser rejects the trimmed URL or the save throws. A missing field or a rejected URL changes nothing. A throwing save leaves the new tile appended, the store unwritten and the modal open. Otherwise the trimmed link is appended, the grid's links are stored and the modal closes |
| StartPage.Page.ModalClick | script.js:147-152 | a click on the backdrop closes the modal; any other click leaves it as it was |
| StartPage.Page.KeyDown | script.js:186-189 | Escape closes the modal; any other key leaves it as it was |
| StartPage.Page.ChangeBackground | script.js:160-163 | the body background becomes the value; the `background` key does too when storage accepts the write, and otherwise keeps its old value while the failure is reported |
| StartPage.Page.LoadBackground | script.js:165-170 | a stored, non-empty value becomes the background; otherwise the background is unchanged |
| StartPage.Page.Initialize | script.js:172-176 | start-up sets the clock text, then loads the background, then loads the links |

## Left out

- The date line of `updateTime`, `new Date()` and the one-second timer.
  - The clock's hour and minute are parameters.
  - Locale-dependent date formatting is outside the model.
- The DOM itself and the markup `innerHTML` builds.
  - HTML in a title is not modelled: the model stores and shows the title
    text as it was given.
  - `saveLinks` reads the title back from the tile's `textContent`. The model
    takes that to be the title that was rendered.
- `alert` and `focus`: `SaveModal` returns which alert would be shown, and
  focus is not modelled.
- The `/` shortcut of the `keydown` handler (focus only) and the settings
  button (an alert only).
- `new URL`: the web URL parser is not part of this model. It enters
  `SaveModal` as the `parses` function.
- `JSON.stringify` and `JSON.parse` are not modelled.
  - The store holds the list of records itself.
  - A corrupt, non-array or empty-string `quickLinks` value, on which the
    script throws or does nothing, is outside the model.
- StartPage.Page.SaveModal: storage failure is the only throw from
  `addLinkToGrid` that the model follows into the `catch` of
  script.js:139-140. DOM failures, such as `querySelector('.link-title')`
  returning null at script.js:65 for a tile whose markup a title broke, are
  not modelled. `saveLinks` and `changeBackground` are limited the same way.
- Search.PrefixText: keys that name properties of `Object.prototype` are
  treated as missing. In the script such a key reads the inherited property
  instead: `toString` gives its function's source text and `__proto__` gives
  `[object Object]`. The model's "undefined" covers only keys that are
  neither in the table nor inherited by it. `SearchTarget` and
  `StartPage.Page.PerformSearch` share this gap.
- Links.Icon: its contract holds only for titles that begin with an ASCII
  character, for two reasons.
  - `charAt(0)` at script.js:82 takes the first UTF-16 code unit. For a title
    starting outside the Basic Multilingual Plane, such as an emoji, the
    script's icon is a lone high surrogate. The model's icon is the whole
    character.
  - Case mapping is ASCII only, as the next line says.
- Text.ToUpperChar: does not model Unicode case mapping beyond ASCII letters
  (`toUpperCase` also maps other scripts and can lengthen a character), so
  the icon's contract holds only for ASCII titles.
- Lone UTF-16 surrogates: strings are sequences of Unicode scalar values. The
  `URIError` that `encodeURIComponent` raises on a lone UTF-16 surrogate
  cannot arise and is not modelled.
- Deleting or editing links: the script has neither.
