# Multilingual translator: the orchestration engine in Dafny

This project models the part of the Multilingual Translation App (a
Streamlit page over the unofficial `googletrans` client) that has logic of
its own. The rest of the page is layout. The modelled parts are:

- the **language catalog**: the provider's code-to-name table, the inverted
  name-to-code map with "Automatic Detection" sent to `auto`, the name shown
  for a detected code, and the option lists of the two selectors (module
  `Catalog`);
- **blank-input detection**: `not text or not text.strip()`, with Python's
  whitespace set (module `Text`);
- the **request resolver** `perform_translation` (module `Resolver`). The
  provider is two total functions that answer `None` where the real service
  raises. The resolver returns its result together with the list of provider
  calls it made. This is how "no call on blank input" and "detect before
  translate" are stated;
- the **session**: a class with the two language selections and the
  history, plus the methods for the swap button, the two selectors, the
  Translate button (which appends to the history) and the Clear History
  button. The history is displayed newest first (module `Interactive`);
- the **batch driver**: a loop over a column's cells. It collects one
  outcome or the `"Error"` marker per row, reports progress after each row
  and stores the outcomes in the column `translated_<code>` (module `Batch`).

The two provider operations are parameters of type `Provider`. The clock's
timestamp is a parameter of `Session.Translate`. The catalog's contents, the
provider's `LANGUAGES` table, is a parameter too: the `googletrans` package
is not part of this model.

Three behaviours of the code shape the model:
- A translation that comes back as an empty string counts as a failure,
  just like a null result. The history does not record it
  (`if translated_text:`) and the batch stores `"Error"` for it
  (`translated or "Error"`).
- The interactive path looks labels up with `lang_codes[...]` and no guard,
  so there is no error path for an unknown language. `Session.Translate`
  requires the selections to be options of the selectors, and the selector
  methods and the swap keep that invariant.
- The resolver returns whatever code `detect` answers. It returns a real
  code only when the provider does not detect `auto`
  (`ResolvedSourceIsReal`).

The batch driver asks the service afresh for every row, and the service can
fail for one row and answer the next. The batch methods therefore take one
`Provider` per row: row `i` is answered by `ps[i]`, the service as it
behaves at that moment.

## Model

| member | source | states |
|---|---|---|
| Text.Strip | app.py:52 | `text.strip()` is empty exactly when every character is Python whitespace; otherwise it begins and ends with a non-whitespace character |
| Text.StripCutsWhitespaceEnds | app.py:52 | `text.strip()` is a contiguous infix of `text` whose prefix before it and suffix after it are all whitespace, so nothing else is removed or reordered |
| Text.IsBlank | app.py:52 | the early-return condition `not text or not text.strip()` holds exactly when the text is all whitespace, the empty text included |
| Resolver.Resolve | app.py:50-64 | blank text gives `None` with no provider call. `detect` is called, as the first call, exactly when the source is `auto` and the text is not blank. With an explicit source the only call is `translate(text, src, dest)`. A call is made only after all earlier calls succeeded. Success means the last call was a translate that succeeded, and the result is that call's text together with the effective source: the detected code for `auto`, `src` otherwise |
| Resolver.FailsIffBlankOrCallFailed | app.py:54-64 | no fault escapes: a request returns `None` exactly when its text is blank or one of the provider calls it made failed |
| Resolver.EchoResolves | app.py:56-61 | with a provider that echoes its input and an explicit source, non-blank text comes back unchanged, tagged with that source |
| Resolver.ResolvedSourceIsReal | app.py:56-61 | if the provider does not detect `auto` for the text, a successful request never reports `auto` as its source |
| Catalog.NameToCode | app.py:104 | the inverted table's keys are exactly the catalog's names |
| Catalog.NameToCodeLastWins | app.py:104 | a name is sent to the code of the last entry, in table order, that carries it |
| Catalog.NameToCodeValues | app.py:104 | every value of the inverted table is a catalog code |
| Catalog.LangCodes | app.py:104-105 | `lang_codes` sends "Automatic Detection" to `auto`, knows exactly the catalog names plus that label, and agrees with the inverted table on every other name |
| Catalog.CodeOfEveryName | app.py:104-105 | when names are unique, every catalog name is sent to the code it belongs to |
| Catalog.NameForCode | app.py:135 | `LANGUAGES.get(code, "Unknown")`: an unknown code gives "Unknown"; in a table keyed by code, a known code gives its entry's name |
| Catalog.NameRoundTrip | app.py:104-105 | with unique names and codes, name → code → name gives the name back |
| Catalog.CodeRoundTrip | app.py:135 | with unique names and codes, code → name → code gives a known code back |
| Catalog.NameList | app.py:102 | `list(LANGUAGES.values())` lists every entry's name in table order and nothing else |
| Catalog.SourceOptions | app.py:103 | the source selector offers "Automatic Detection" and the catalog names, nothing else |
| Catalog.TargetOptions | app.py:119 | the target selector offers the catalog names and never "Automatic Detection" |
| Catalog.OptionsHaveCodes | app.py:102-105 | every source option has a code in `lang_codes`; every target option has a catalog code and never `auto` |
| Interactive.NewestFirst | app.py:158 | the displayed history (`iloc[::-1]`) has the same length and shows entry `i` of the newest-first view as entry `n-1-i` of the log |
| Interactive.NewestFirstAppend | app.py:145-158 | appending an entry puts it first in the display, in front of everything shown before |
| Interactive.NewestFirstInvolution | app.py:158 | reversing the display gives the insertion order back, so displaying does not disturb the log |
| Interactive.Swapped | app.py:66-75 | the new source is the old target; the new target is either the old source or the old target, and is never "Automatic Detection" if the old target was not |
| Interactive.SwapKeepsSelectionValid | app.py:66-75 | a swap keeps the source among the source options and the target among the target options |
| Interactive.SwapTwice | app.py:66-75 | with a real target, two swaps restore a pair whose source is real; from "Automatic Detection" the first swap is already a fixed point |
| Interactive.InitialSelectionValid | app.py:40-46 | the initial selection ("Automatic Detection", "urdu") is valid whenever the catalog names "urdu" |
| Interactive.Session.constructor | app.py:40-46 | a new session has source "Automatic Detection", target "urdu" and an empty history |
| Interactive.Session.ChooseSource | app.py:109-113 | picking a source option changes only the source and keeps the selection valid |
| Interactive.Session.ChooseTarget | app.py:117-121 | picking a target option changes only the target and keeps the selection valid |
| Interactive.Session.Swap | app.py:66-75 | the new source is the old target; the new target is the old source unless that was "Automatic Detection", in which case it is unchanged; a real target stays real; the history is unchanged; every valid selection stays valid |
| Interactive.Session.Translate | app.py:126-151 | the labels are turned into codes through `lang_codes` and the request is resolved. Exactly one entry (input, translation, the two labels, timestamp) is appended when the translated text is non-empty, and none otherwise. The selections are unchanged |
| Interactive.Session.ClearHistory | app.py:160-161 | the history and its display become empty; the selections are unchanged |
| Interactive.TargetCodeIsReal | app.py:127-128 | from a valid selection both labels have codes, and the target code is a catalog code, never `auto` |
| Batch.CellOutcome | app.py:188-189 | a blank cell gives "Error". Any other outcome is a non-empty text that `translate` answered for the cell from the code `detect` answered. When both calls succeed with non-empty text, that text is the outcome |
| Batch.TranslateCells | app.py:184-191 | one outcome per cell, in input order, each the outcome of that cell under the service as it answered for that row; progress after row `i` is `(i+1, n)`, strictly increasing and ending at `(n, n)` |
| Batch.AssignColumn | app.py:192 | after `df[name] = cells`, `name` reads back `cells`, every other name reads what it read before, no column moves, and the table stays rectangular |
| Batch.TranslateFile | app.py:178-192 | the target code comes from the inverted catalog. The column `translated_<code>` then holds, row by row, the outcome of the selected column's cell under the service as it answered for that row. Every other column is unchanged, no column moves, at most one column is added, and progress is reported once per row |
| Batch.TransientFailureExample | app.py:184-191 | a row the service fails on gets "Error" and the loop goes on: the next row, answered by the recovered service, gets its translation; progress reads 1 and 2 of 2 |

## Left out

- Page layout and widgets (page config, CSS, sidebar, radio, buttons, spinner, `st.code`, `st.success`/`st.info`/`st.error`, `st.rerun`, the About page): rendering only. The error message the resolver shows on a provider failure is not modelled; only the `None` result is.
- The `googletrans` `Translator`, its caching and its `LANGUAGES` table: foreign code. The provider is a parameter, and so is the catalog.
- CSV reading, `df.head`, the data preview, `to_csv(...).encode('utf-8')` and the download button: I/O and serialisation by pandas. A table is a sequence of named columns of strings.
- The `try`/`except` around the file processing (app.py:173-204): it only catches errors from pandas I/O, which is not modelled. The translation loop itself cannot raise, because the resolver catches everything.
- `time.strftime`: clock I/O. The timestamp is an opaque parameter.
- Batch.TranslateCells: progress is the pair `(i+1, n)`, not the float `(i+1)/len(df)`, and the text label "Translating row i/n" is not built.
- Catalog.NameForCode: the `.title()` capitalisation of the detected language's name is not applied (display only).
- Batch.TranslateFile: cells are already strings; `str(text)` of pandas values such as NaN is not modelled.
- Batch.AssignColumn: `read_csv` never yields two columns with the same name. For a duplicated name the model, like pandas, overwrites every column of that name, and `Lookup` reads the first one. Unequal lengths make pandas raise, so they are excluded by the requires.
- Interactive.Session.Translate: a label that is missing from `lang_codes` would make the source raise `KeyError`. The selectors never produce one, so the method requires a valid selection instead.
