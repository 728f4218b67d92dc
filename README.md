# cmenu core, modelled in Dafny

cmenu is a terminal launcher. Its configuration lists scripts, and each
script has trigger strings of the form `"<kind> <value>"`. After every event of
its loop (a key, the 250 ms redraw tick that lets an idle launcher notice
that an interval has passed, or an applied load) the launcher does four
things:

- it decides which scripts the query selects (a leading prefix word, plus one
  level of chained scripts, or else every script);
- when a prefix selected the scripts, it starts a first load for each selected
  script that has no lines yet (the fallback selection starts no load);
- it filters the cached lines of the selected scripts against the rest of the
  query;
- it starts a reload for each visible script that has a non-zero refresh
  interval, has been loaded at least once, and whose interval has passed
  since that load.

A run of a script holds a per-script `running` claim. A failed run keeps the
cached lines. A successful run replaces them when its output is not empty, and
always stamps the load time. Each line may start with private OSC directives
(`ESC ] 6366 ; option BEL`). They are stripped before matching and display, and
the `highlight` option marks the line. A separate generic list widget
(`listw.List`) holds items, a filtered and sorted view, and a cursor.

The project is seven modules, one per file:

| file | module | contents |
|---|---|---|
| `wrappers.dfy` | `Wrappers` | `Option`, `Result` |
| `strings.dfy` | `GoStrings` | the Go `strings` functions used: `Cut`, `Index`, `Split`, `Join`, `ReplaceAll`, `Repeat`, `Contains`, lower-casing |
| `lines.dfy` | `Lines` | `parseLineStyle`, `match`, the column logic of `drawLine`, `clamp`, `padRight` |
| `triggers.dfy` | `Triggers` | the trigger-table loop and reference definitions of its four tables |
| `runner.dfy` | `Runner` | the `script` run state as a class, `runScript`, the spinner counter |
| `frame.dfy` | `Frame` | the per-event selection, first loads, visibility and interval reloads |
| `listw.dfy` | `Listw` | the `List` class, `Filter`, and a stable insertion sort as the reference for the library sort |

Loops in the source are methods with loop invariants, each proved equal to a
reference function:

- the trigger loop;
- the selection, load, visibility and reload loops;
- `parseLineStyle`'s directive loop;
- `drawLine`'s column loop;
- `FilterFunc`.

Lemmas then state what those functions promise: membership in both directions,
round trips, idempotence, order, permutation and stability.

Some consequences of the code worth spelling out:

- The code has no `input` (debounce) trigger kind. Such a trigger is an
  unknown kind and a configuration error.
- With no prefix match, every configured script is selected in configuration
  order, on-start or not.
- Chains are expanded exactly one level, with no visited set.
- Selected names are not de-duplicated. A duplicate load that starts while
  the first run holds the `running` claim is a no-op.

Time is an integer (nanoseconds), with 0 standing for Go's zero `time.Time`.
`time.ParseDuration` is an abstract partial function passed as a parameter.

## Model

| member | source | states |
|---|---|---|
| Triggers.BuildTriggerTable | main.go:80-100 | the nested loop over scripts and triggers returns exactly BuildTable: the first error, or the four tables |
| Triggers.BuildTableSucceedsIff | main.go:80-100 | building succeeds if and only if every trigger of every script has a known kind and every interval duration parses |
| Triggers.BuildTableFirstError | main.go:82-98 | on failure the reported error belongs to the first invalid trigger in configuration order: BadDuration for an interval, UnknownKind otherwise |
| Triggers.AddTriggerOutcome | main.go:82-98 | one trigger is accepted exactly when it is valid, and otherwise fails with that trigger's error |
| Triggers.BuildTableContents | main.go:80-100 | for any prefix, triggersPrefix lists the scripts with that `pre` trigger in configuration order, once per trigger. For any name, triggersScript lists its `script` values in order. triggersOnStart is the set of scripts with an `on-start` trigger. triggersInterval holds the last `interval` duration |
| Triggers.AddTriggersPrefix | main.go:86-87 | reading one script's triggers appends its name to a prefix list once per matching `pre` trigger |
| Triggers.AddTriggersChain | main.go:88-89 | reading one script's triggers appends each `script` value to its chain list in order |
| Triggers.AddTriggersOnStart | main.go:84-85 | reading one script's triggers adds its name to the on-start set exactly when it has an `on-start` trigger |
| Triggers.AddTriggersInterval | main.go:90-95 | reading one script's triggers records the duration of its last `interval` trigger |
| Frame.SelectScripts | main.go:237-249 | the effective query and selection equal Select. With a registered prefix word: its scripts and their chained scripts, and the rest of the query. Otherwise: every script and the whole query |
| Frame.ResolveSelection | main.go:237-261 | adds the loads: under a prefix, every selected script without lines; under the fallback, no load at all |
| Frame.FirstLoads | main.go:251-259 | the loop starts a load for exactly the selected scripts whose lines are empty, in order |
| Frame.SelectByPrefix | main.go:238-243 | "left rest" with a registered prefix `left` selects its scripts plus their chained scripts, and matches `rest` |
| Frame.SelectWithoutSpace | main.go:238-249 | a query without a space selects every script in configuration order and is matched whole |
| Frame.SelectUnknownPrefix | main.go:239-249 | a first word that is not a registered prefix falls back to every script and the whole query |
| Frame.SelectMember | main.go:238-247 | under a prefix, a script is selected if and only if the prefix lists it or a listed script chains to it |
| Frame.ChainedMember | main.go:245-247 | the chained names are exactly the chain targets of the base names |
| Frame.ChainOneLevel | main.go:245-247 | chains are followed one level only: with a->b and b->c, the query "a x" selects a and b but not c |
| Frame.UnloadedMember | main.go:251-259 | a script gets a first load if and only if it is selected and has no lines |
| Frame.LoadedSelectsNothing | main.go:251-259 | when every selected script already has lines, no load is started |
| Frame.VisibleLines | main.go:263-279 | the visible lines and visible scripts equal Visible and VisibleScripts, and every visible script is configured, as the reload loop needs |
| Frame.VisibleScriptsConfigured | main.go:276-278 | only selected, hence configured, scripts enter visScripts |
| Frame.ShownLines | main.go:268-277 | one script's shown items, tagged with its name, and whether there is any |
| Frame.VisibleMember | main.go:263-279 | a line is visible if and only if its script is selected, the item is among its lines, and the raw input is empty or the item matches the query |
| Frame.VisibleScriptsMember | main.go:276-278 | a script is in visScripts if and only if it is selected and at least one of its items is shown |
| Frame.PassingMember | main.go:270-271 | an item passes if and only if it is present and shown |
| Frame.PassingAll | main.go:270-271 | with empty raw input, or an empty query after a prefix, every item passes |
| Frame.ShowAll | main.go:263-279 | with empty input, or an empty query after a prefix, every line of every selected script is visible, in selection order |
| Frame.DueReloads | main.go:281-301 | the reload loop starts a reload for exactly the scripts Reloads lists |
| Frame.ReloadsMember | main.go:281-301 | a script is reloaded if and only if it is visible, its interval is non-zero, it has been loaded (lastLoaded is not 0), and now - lastLoaded >= interval, so a never-loaded script is never reloaded this way |
| Runner.Script.constructor | main.go:69-71 | a new script record is not running, has no lines, and has lastLoaded 0 (never loaded) |
| Runner.Script.Release | main.go:399-403 | the deferred release clears the running claim |
| Runner.Script.TryClaim | main.go:391-397 | the claim succeeds if and only if no run was in progress, and leaves `running` set |
| Runner.Script.Apply | main.go:444-451 | lines become the output when it is non-empty and are otherwise kept; lastLoaded becomes now, which is never the zero time, so the script counts as loaded |
| Runner.Script.BeginRun | main.go:390-405 | the claim, then the spinner is started only for a run that took the claim |
| Runner.Script.FinishRun | main.go:399-451 | a failure keeps lines and lastLoaded and reports the error; success applies the output at now; the spinner is stopped and the claim released |
| Runner.Script.RunScript | main.go:390-451 | an already running script is a successful no-op; otherwise running is cleared on every path, a failure changes no lines or time, success applies, and the spinner count is unchanged overall |
| Runner.OverlappingRuns | main.go:390-397 | a run that starts while another holds the claim changes nothing, so the script ends as after the first run alone |
| Runner.Spinner.constructor | main.go:498-504 | a new spinner has count 0 and is not animating |
| Runner.Spinner.Start | main.go:506-510 | the count goes up by one; the animation starts when it becomes 1 |
| Runner.Spinner.Stop | main.go:512-516 | the count goes down by one; the animation stops when it reaches 0 |
| Lines.ParseLineStyle | main.go:476-491 | the loop as written returns exactly StripDirectives |
| Lines.StripDirectives | main.go:476-491 | the text left is a suffix of the line |
| Lines.StripIdempotent | main.go:476-491 | the stripped text starts with no directive, so stripping again changes nothing |
| Lines.StripEncode | main.go:476-491 | for encoded options followed by text s without a leading directive, stripping gives s, with highlight if and only if some option is "highlight" |
| Lines.StripDecompose | main.go:476-491 | every line is some encoded directives followed by its stripped text, with highlight if and only if one of them is "highlight" |
| Lines.HighlightDirective | main.go:476-491 | the prefix, "highlight" and BEL before s (s not starting with the prefix) give (s, true) |
| Lines.Match | main.go:462-467 | case-insensitive (ASCII) substring test of the query in the directive-stripped line; a match needs the query no longer than that text |
| Lines.MatchEmptyQuery | main.go:462-467 | the empty query matches every line |
| Lines.MatchIgnoresQueryCase | main.go:462-467 | lower-casing the query does not change the match |
| Lines.MatchIgnoresDirectives | main.go:462-467 | leading directives never take part in matching |
| Lines.MatchNarrows | main.go:462-467 | typing more only narrows the list: a line that matches a query also matches every infix of it |
| Lines.DrawText | main.go:327-341 | the displayed text is the stripped line's listed columns joined by spaces, or with tabs replaced by spaces when there is no column list; highlight is the directive's |
| Lines.SelectColumns | main.go:331-336 | the column loop keeps the listed 1-indexed columns that exist, in list order |
| Lines.PickInRange | main.go:331-336 | when every listed column exists, the result is exactly those fields, position by position |
| Lines.AllColumns | main.go:329-340 | listing every column in order displays the same text as no column list |
| Lines.ColumnTextHasNoTab | main.go:329-340 | the displayed text never contains a tab |
| Lines.Clamp | main.go:456-460 | in range the value is kept, below it gives mn, above it gives mx; with mn > mx the result is mx |
| Lines.PadRight | main.go:523-529 | the string is a prefix of the result; it is unchanged when already wide enough, otherwise followed by exactly width - len(s) copies of p |
| Lines.PadRightContents | main.go:523-529 | for a short string, the j-th copy of the padding holds the characters of p in order |
| Lines.PadRightWidth | main.go:523-529 | with a one-character pad, a short string is filled up to exactly width with that character |
| GoStrings.Cut | main.go:238 | found if and only if the separator occurs; then s is before + separator + after, and before has no separator |
| GoStrings.JoinSplit | main.go:330-340 | splitting at tabs and joining with spaces is the same as replacing every tab by a space |
| GoStrings.SplitRoundTrip | main.go:330 | joining the split fields with the separator gives the string back |
| GoStrings.JoinRoundTrip | main.go:330-338 | splitting a join of one or more separator-free fields gives the fields back |
| Listw.List.constructor | listw/listw.go:19-21 | New is an empty list with the cursor at 0, in the cursor invariant |
| Listw.List.Append | listw/listw.go:29-31 | items become the old items followed by the new ones; nothing else changes |
| Listw.List.FilterFunc | listw/listw.go:33-45 | filtered becomes exactly Filter(items, f). A cursor at or past the new end moves to len - 1 (-1 when empty); otherwise it is kept. The cursor invariant is preserved |
| Listw.FilterMember | listw/listw.go:33-40 | an element is in the filter if and only if it is an item satisfying f |
| Listw.FilterCount | listw/listw.go:33-40 | each kept element is kept as many times as it occurs |
| Listw.List.SortFunc | listw/listw.go:47-49 | filtered becomes the stable sort of the old view, a permutation of it; for a valid comparator it is ordered, and the elements comparing equal to any x keep their relative order |
| Listw.SortStableSorted | listw/listw.go:47-49 | for a comparator that is a total preorder, the result is sorted |
| Listw.SortStablePermutes | listw/listw.go:47-49 | the result is a permutation of the input |
| Listw.SortStableStable | listw/listw.go:47-49 | the elements tying with any x appear in the same order before and after sorting |
| Listw.List.ActiveItem | listw/listw.go:55-61 | an item is returned if and only if 0 <= index < len(filtered), and it is filtered[index] |
| Listw.List.ActiveWhenValid | listw/listw.go:55-61 | under the cursor invariant, an item is active exactly when the view is non-empty and the cursor is not -1 |
| Listw.List.Down | listw/listw.go:63-65 | index becomes min(len - 1, index + 1), never past the last position; the cursor invariant is preserved |
| Listw.List.Up | listw/listw.go:67-69 | index becomes max(0, index - 1), never negative; the cursor invariant is preserved |
| Listw.List.Home | listw/listw.go:71-73 | index becomes 0 |
| Listw.List.End | listw/listw.go:75-77 | index becomes len(filtered) - 1 |
| Listw.List.PageDown | listw/listw.go:79-82 | index becomes min(len - 1, index + height); the cursor invariant is preserved |
| Listw.List.PageUp | listw/listw.go:84-87 | index becomes max(0, index - height), never negative; the cursor invariant is preserved |
| Listw.CursorLostAfterEmptyFilter | listw/listw.go:33-45 | a filter that empties the view moves the cursor to -1. A later filter that fills it again leaves the cursor at -1, so no item is active |

## Left out

- Subprocess execution is not modelled: the command, its process group, SIGTERM cancellation, the 5-second timeout, pipes and line scanning. A run is an abstract `ExitStatus`: a failure with a reason, or a clean exit with its output lines.
- Goroutines, `vx.PostEvent`, the mutex and the atomic spinner counter are not modelled. Every step is sequential.
- Runner.Script.FinishRun: applies the output before stopping the spinner and releasing the claim. In Go the deferred release runs first, and the `SyncFunc` apply runs later on the event loop.
- Runner.Spinner: the count is an unbounded integer, while Go uses an `int32` that could wrap. The animation model is only the `animating` flag.
- The startup launch of on-start scripts is not modelled. It iterates a Go map, so its order is unspecified.
- The key handlers are not modelled: Enter/Right running the selected item, `active()`, stay-open.
- Rendering is not modelled: `drawFooter`, window layout, colours, the listw `Draw` method and the text-input widget.
- TOML parsing, logging, the environment and signals are not modelled.
- GoStrings.Lower: ASCII lower-casing only, where Go's `strings.ToLower` is full Unicode. Strings are sequences of characters with one character per byte, so `len` counts characters.
- Lines.DrawText: requires every configured column to be at least 1 (`ColumnsValid`), as do SelectColumns, PickColumns and ColumnText. In Go a column of 0 or less gives a negative index that passes the `i <= len(columns)-1` test, and `columns[i]` panics. The model does not include that crash.
- Frame.ResolveSelection: requires every name the trigger table produces to be a configured script. In Go an unknown `script` chain target is a nil `*script`, and reading its lines panics. The model does not include that crash.
- Listw.List.SortFunc: specified by its result, a stable insertion sort. The algorithm inside `slices.SortStableFunc` is not modelled. Sortedness and stability are proved for comparators that are total preorders, the condition the library itself states.
- Listw.List.PageDown and Listw.List.PageUp take the window height as a `nat`, because a terminal window never has a negative height.
- Lines.Clamp: Go's version is generic over ordered types, and only the integer case is modelled.
