# ComposeBasics state layer in Dafny

A model of the pure state behind the ComposeBasics demo screen
(`MainActivity.kt`): a scrollable list of greeting rows that can be selected,
and a button that counts its clicks. What it covers:

- **`NameState`** records. A record is an id, a label (`value`) and a selection flag.
- **`ListViewModel`**. It builds the list from labels with `mapIndexed`, so each row's id is its index. Its `onClick(id)` flips the flag of the row at position `id`, and an index outside the list throws.
- **The `MyScreenContent` click handler.** It finds the first row whose id matches the clicked row and flips it. When no row matches, it does nothing.
- **The `Counter`.** A click reports `count + 1` in Kotlin `Int` arithmetic, which wraps around at `Int.MAX_VALUE`. The button is emphasised when `count > 5`.
- **The displayed text.** A row shows `"Hello " + value + "!"`. The button shows `"I've been clicked " + count + " times"`. The default labels are `"Hello Android #" + i`.

Modules:

- `Wrappers` (`wrappers.dfy`): `Option`, the result of `find` and of parsing.
- `KotlinInt` (`kotlin_int.dfy`): the 32-bit `Int` type and its wrap-around.
- `Decimal` (`decimal.dfy`): Kotlin's `Int.toString()`, as used by string templates. A parser is included, so the round trip can be proved in both directions.
- `Names` (`names.dfy`): `NameState`, construction, the view model's toggle and the screen's find-and-toggle.
- `Greeting` (`greeting.dfy`): row text, row highlighting, and the rendered list.
- `Counter` (`counter.dfy`): the click step, emphasis and the label.
- `Screen` (`screen.dfy`): the state `MyScreenContent` remembers (names plus count), the default seed data, user events, and a two-row scenario.

The model follows the code in three places that are easy to get wrong:

- **The counter is a Kotlin `Int`.** It wraps to `Int.MIN_VALUE` after `Int.MAX_VALUE`. It is not unbounded.
- **An unknown id is handled two different ways.** `ListViewModel.onClick` throws for an index outside the list. The screen's handler silently does nothing when no id matches. Both behaviours are modelled, and `Names.ScreenClickAgrees` relates them.
- **The counter lives in the screen, not the view model.** `MyScreenContent` keeps it with `remember`. The activity declares a lazily created `ListViewModel` but never reads it, so none is built; the screen uses its own default list.

## Model

| member | source | states |
|---|---|---|
| Names.FromLabels | app/src/main/java/com/zuhlke/storygame/composebasics/MainActivity.kt:135-137 | Building from N labels gives N rows. Row i has id i, label `labels[i]` and is not selected. |
| Names.FromLabelsValues | app/src/main/java/com/zuhlke/storygame/composebasics/MainActivity.kt:136 | Reading the labels back from a freshly built list gives the original labels. |
| Names.FromLabelsUnique | app/src/main/java/com/zuhlke/storygame/composebasics/MainActivity.kt:136 | Any list with ids at their positions and nothing selected is exactly the list built from its own labels. |
| Names.Toggle | app/src/main/java/com/zuhlke/storygame/composebasics/MainActivity.kt:141-145 | For `0 <= id < size`, the row at position `id` has its flag flipped. Every other row is unchanged, and no id or label changes. |
| Names.OnClick | app/src/main/java/com/zuhlke/storygame/composebasics/MainActivity.kt:141-145 | `onClick` fails with an index-out-of-bounds error exactly when `id` is outside `[0, size)`, and the error reports the id and the size. Otherwise it is the toggle. |
| Names.ToggleInvolution | app/src/main/java/com/zuhlke/storygame/composebasics/MainActivity.kt:141-145 | Clicking the same index twice restores the list. |
| Names.ToggleSelected | app/src/main/java/com/zuhlke/storygame/composebasics/MainActivity.kt:141-145 | The set of selected positions changes by exactly the toggled position: it is added if absent and removed if present. |
| Names.TogglePreserves | app/src/main/java/com/zuhlke/storygame/composebasics/MainActivity.kt:141-145 | A toggle keeps ids equal to positions and keeps all labels. |
| Names.OnClicksInvariant | app/src/main/java/com/zuhlke/storygame/composebasics/MainActivity.kt:141-145 | A sequence of `onClick` calls succeeds exactly when every id is in range. A successful run keeps the length, the labels and the ids-equal-positions invariant. |
| Names.FindFirst | app/src/main/java/com/zuhlke/storygame/composebasics/MainActivity.kt:75 | `find { it.id == id }` returns the position of the first row with that id, with no earlier match. It returns nothing exactly when no row has that id. |
| Names.ScreenClick | app/src/main/java/com/zuhlke/storygame/composebasics/MainActivity.kt:74-78 | The screen handler leaves the list unchanged when no row has the clicked id. It never changes the length or a label, and it keeps ids equal to positions. |
| Names.ScreenClickFlipsFirst | app/src/main/java/com/zuhlke/storygame/composebasics/MainActivity.kt:75-77 | When row i is the first row whose id matches the clicked row, the screen handler flips row i and nothing else. |
| Names.ScreenClickAgrees | app/src/main/java/com/zuhlke/storygame/composebasics/MainActivity.kt:74-78 | When ids equal positions, a screen click on an in-range id equals the view model's `onClick` on that id. For an out-of-range id, the screen does nothing where `onClick` throws. |
| Greeting.GreetingText | app/src/main/java/com/zuhlke/storygame/composebasics/MainActivity.kt:58 | The row text is "Hello " followed by the label and a closing '!'. |
| Greeting.GreetingTextInjective | app/src/main/java/com/zuhlke/storygame/composebasics/MainActivity.kt:58 | Different labels give different greeting texts. |
| Greeting.RenderRow | app/src/main/java/com/zuhlke/storygame/composebasics/MainActivity.kt:48-62 | A row is highlighted exactly when its state is selected. Its text is "Hello ", then the label, then '!'. |
| Greeting.RenderList | app/src/main/java/com/zuhlke/storygame/composebasics/MainActivity.kt:90-96 | The list shows one row per state, in list order. |
| Greeting.RenderAfterToggle | app/src/main/java/com/zuhlke/storygame/composebasics/MainActivity.kt:48-62 | After toggling row `id`, every other row rendered from the state is identical. Row `id` keeps its text and has its highlight flipped. |
| KotlinInt.Wrap | app/src/main/java/com/zuhlke/storygame/composebasics/MainActivity.kt:108 | `Int` addition keeps in-range results. Any result equals the exact sum modulo 2^32. |
| Counter.Click | app/src/main/java/com/zuhlke/storygame/composebasics/MainActivity.kt:108 | Below `Int.MAX_VALUE`, a click reports exactly `count + 1`. At `Int.MAX_VALUE` it reports `Int.MIN_VALUE`. |
| Counter.ClicksAdd | app/src/main/java/com/zuhlke/storygame/composebasics/MainActivity.kt:107-108 | While the total stays at or below `Int.MAX_VALUE`, k clicks add exactly k. |
| Counter.ClicksFromZero | app/src/main/java/com/zuhlke/storygame/composebasics/MainActivity.kt:67-81 | Starting from the remembered initial 0, k clicks give k, for k up to `Int.MAX_VALUE`. |
| Counter.ClicksMonotone | app/src/main/java/com/zuhlke/storygame/composebasics/MainActivity.kt:107-108 | Below the `Int` limit, more clicks never give a smaller count. |
| Counter.EmphasisedAfterClicks | app/src/main/java/com/zuhlke/storygame/composebasics/MainActivity.kt:111-117 | From 0, the button is emphasised (`count > 5`) exactly after more than five clicks, for k up to `Int.MAX_VALUE`. |
| Counter.ClickWrapsAtMax | app/src/main/java/com/zuhlke/storygame/composebasics/MainActivity.kt:108 | A click at `Int.MAX_VALUE` shows `Int.MIN_VALUE`, which is not emphasised. |
| Counter.Emphasised | app/src/main/java/com/zuhlke/storygame/composebasics/MainActivity.kt:111-117 | The button takes the emphasised colours exactly when the count exceeds 5. Once emphasised, a click below the `Int` limit keeps it emphasised. |
| Counter.Label | app/src/main/java/com/zuhlke/storygame/composebasics/MainActivity.kt:116 | The button text is "I've been clicked ", then the decimal count, then " times". |
| Counter.LabelInjective | app/src/main/java/com/zuhlke/storygame/composebasics/MainActivity.kt:116 | Different counts give different button texts. |
| Decimal.NatToDecimal | app/src/main/java/com/zuhlke/storygame/composebasics/MainActivity.kt:116 | A natural number is written as a non-empty digit string with no leading zero. The string is "0" exactly for 0. |
| Decimal.IntToDecimal | app/src/main/java/com/zuhlke/storygame/composebasics/MainActivity.kt:116 | A negative `Int` is written as '-' followed by canonical digits that are not "0". A non-negative one is written as canonical digits. |
| Decimal.IntRoundTrip | app/src/main/java/com/zuhlke/storygame/composebasics/MainActivity.kt:116 | Parsing the decimal text of any integer gives that integer back. |
| Decimal.ParseRoundTrip | app/src/main/java/com/zuhlke/storygame/composebasics/MainActivity.kt:116 | Any text the parser accepts is exactly the decimal text of the value it parses to. |
| Decimal.IntToDecimalInjective | app/src/main/java/com/zuhlke/storygame/composebasics/MainActivity.kt:116 | Different integers have different decimal texts. |
| Screen.DefaultLabel | app/src/main/java/com/zuhlke/storygame/composebasics/MainActivity.kt:132 | Default label i is "Hello Android #" followed by the decimal text of i. |
| Screen.DefaultLabelInjective | app/src/main/java/com/zuhlke/storygame/composebasics/MainActivity.kt:132 | Different indices give different default labels. |
| Screen.DefaultLabels | app/src/main/java/com/zuhlke/storygame/composebasics/MainActivity.kt:132 | The view model's default seed has n labels. Label i is "Hello Android #" followed by i, so the labels are pairwise distinct. |
| Screen.DefaultsAgree | app/src/main/java/com/zuhlke/storygame/composebasics/MainActivity.kt:66 | The screen's default list equals the list the view model builds from its default labels. |
| Screen.DefaultNames | app/src/main/java/com/zuhlke/storygame/composebasics/MainActivity.kt:66 | The screen's default list has n rows. Row i has id i, label "Hello Android #" followed by i, and is not selected. |
| Screen.DefaultScreen | app/src/main/java/com/zuhlke/storygame/composebasics/MainActivity.kt:66-68 | The screen as first composed has 1000 unselected rows with ids at their positions and a count of 0. It is the same list the view model builds by default. |
| Screen.Step | app/src/main/java/com/zuhlke/storygame/composebasics/MainActivity.kt:74-81 | A row tap leaves the count alone and a counter tap leaves the names alone. Neither changes the list's length or labels. |
| Screen.RunNames | app/src/main/java/com/zuhlke/storygame/composebasics/MainActivity.kt:74-78 | After any run of taps, the names are what the row taps alone produce, whatever counter taps are interleaved. |
| Screen.RunCount | app/src/main/java/com/zuhlke/storygame/composebasics/MainActivity.kt:79-81 | After any run of taps, the count is the initial count advanced by the number of counter taps, whatever row taps are interleaved. |
| Screen.ClicksCommute | app/src/main/java/com/zuhlke/storygame/composebasics/MainActivity.kt:74-81 | A row tap and a counter tap give the same state in either order. |
| Screen.RunKeepsNames | app/src/main/java/com/zuhlke/storygame/composebasics/MainActivity.kt:74-78 | Under any taps, the list keeps its length and labels, and ids stay equal to positions. |
| Screen.RenderDeterminesState | app/src/main/java/com/zuhlke/storygame/composebasics/MainActivity.kt:70-86 | For two states whose rows carry the same ids, the rendered screens (row texts and highlights, button text and emphasis) are equal exactly when the states are equal. |
| Screen.RenderAfterCounterClick | app/src/main/java/com/zuhlke/storygame/composebasics/MainActivity.kt:79-81 | A counter tap leaves every row rendered from the state unchanged and always changes the button text, also when the count wraps at `Int.MAX_VALUE`. |
| Screen.TwoDefaultRows | app/src/main/java/com/zuhlke/storygame/composebasics/MainActivity.kt:132-137 | With two default labels, the view model builds rows 0 and 1, labelled "Hello Android #0" and "Hello Android #1", both unselected. |
| Screen.TwoRowScenario | app/src/main/java/com/zuhlke/storygame/composebasics/MainActivity.kt:66-81 | On two default rows, tapping row 0 and then the button three times leaves only row 0 selected, with a count of 3. |
| Screen.TwoRowScenarioView | app/src/main/java/com/zuhlke/storygame/composebasics/MainActivity.kt:48-62 | That state shows "Hello Hello Android #0!" highlighted, "Hello Hello Android #1!" plain, and an unemphasised "I've been clicked 3 times". |

## Left out

- **Activity lifecycle, `setContent`, `MyApp`, theming and `DefaultPreview`.** These are framework plumbing with no logic.
- **Layout and colours.** `LazyColumn`, `Surface`, `Button`, `Divider`, `Modifier` padding and the `animateColorAsState` colour values are rendering only. Only the highlighted/emphasised booleans are modelled.
- **`MutableStateFlow`/`StateFlow` observation (`observerState`) and Compose `remember`/`mutableStateOf` recomposition.** These are reactive framework behaviour. The model treats each click as a pure step from one snapshot to the next.
- **In-place mutation of `NameState.isSelected`.** The source writes a plain `var` on a shared object, and the model returns a new list instead. This hides two visible effects. First, if the list given to `MyScreenContent` holds the same `NameState` object at two positions, a tap flips that one object, so both positions show as selected; `Names.ScreenClick` flips only the first matching position. Second, the write is not Compose state and does not notify the `StateFlow`, so a row tap schedules no redraw. The real screen draws the new highlight only at a later recomposition, such as the one a counter tap causes. The render lemmas describe what is rendered from the model's state, not when the user sees it.
