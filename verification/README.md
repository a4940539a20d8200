# fch: clipboard history, modelled in Dafny

fch is a tray utility that polls the clipboard. It records each distinct
non-empty text in a bounded history and offers that history in a tray menu,
newest first. Picking an entry copies it back to the clipboard. This project
models the logic of `fch.py` without the OS, tray and YAML bindings:

- the configuration store (`read`, `readAll`, `write`) as an ordered key/value
  document (`ConfigStore`);
- how `getConfig` turns the raw `limit`, `max` and `store` values into HISTLIM,
  HISTMAX and HISTSTORE (`Settings`);
- the first-line label of an entry and the `rstrip("\n")` of a capture (`Text`);
- `appendHist` and the store-cap truncation of `saveHistory` as functions on
  sequences (`History`);
- the menu tree that `rebuildMenu` builds (`Menu`), both as a specification
  function and as the source's loops;
- the change detection of the clipboard poller, and runs of polls (`Poller`);
- the module-level globals and the functions that update them in place, as the
  class `App.Fch`.

Where the two differ, the model follows the code. The code has no default for
HISTLIM: lines 21-23 are commented out. If `limit` is missing or invalid,
`getConfig` keeps the previous HISTLIM. On the first call there is no previous
value, and the source raises a NameError. `Settings.Interpret` returns `None`
in that case. `App.Fch.GetConfig` returns `false` and changes nothing.
Python's `isinstance(True, int)` is true, so a boolean setting is read as 1 or 0.
A missing key and a YAML `null` both read as `Null`, as `data.get` returns None for both.

Foreign calls become parameters:
- a clipboard read is an `Option<string>`, with `None` for a failed read;
- the configuration file is an `Option<Doc>`, with `None` for a missing,
  unreadable, malformed or empty file;
- the loaded history file is an `Option<seq<string>>`.

## Model

| member | source | states |
|---|---|---|
| `ConfigStore.Keys` | fch.py:47 | readAll lists exactly one key per pair |
| `ConfigStore.KeyAt` | fch.py:47 | position i of the key list is the key of the i-th pair |
| `ConfigStore.Lookup` | fch.py:39 | a missing key reads as None; a present key reads as a value stored under it |
| `ConfigStore.Put` | fch.py:55 | after `data[name] = conf` the key is present |
| `ConfigStore.LookupPutSame` | fch.py:55 | after `data[name] = conf`, looking up `name` gives `conf` |
| `ConfigStore.LookupPutOther` | fch.py:55 | after `data[name] = conf`, every other key looks up as before |
| `ConfigStore.KeysPut` | fch.py:55 | an existing key keeps its place; a new key goes last; no other key changes |
| `ConfigStore.PutKeepsDistinct` | fch.py:55 | a mapping without repeated keys keeps none after a write |
| `ConfigStore.Load` | fch.py:34-38 | a missing, unreadable or empty file loads as the empty mapping; otherwise as its document |
| `ConfigStore.Read` | fch.py:33-39 | read gives None for a missing file or a missing key, and otherwise a value stored under the key (exactly which: `ReadAfterWrite`, `ReadOtherAfterWrite`) |
| `ConfigStore.ReadAll` | fch.py:41-47 | readAll lists no key for a missing file and otherwise one key per pair (order: `KeyAt`, `ReadAllAfterWrite`) |
| `ConfigStore.Write` | fch.py:49-57 | after write(name, conf) the file holds `name` with value `conf`, whatever it held before (other keys: `ReadOtherAfterWrite`) |
| `ConfigStore.ReadAfterWrite` | fch.py:33-57 | `write(name, v)` then `read(name)` returns `v`, even when the file was missing or corrupt |
| `ConfigStore.ReadOtherAfterWrite` | fch.py:33-57 | `write(name, v)` leaves `read(other)` unchanged for every other key |
| `ConfigStore.ReadAllAfterWrite` | fch.py:41-57 | after `write(name, v)`, readAll contains `name`; the old keys keep their order and a new key is appended |
| `Settings.NonNegInt` | fch.py:62 | a value is accepted exactly when it is a non-negative int or a bool |
| `Settings.Interpret` | fch.py:59-73 | getConfig succeeds whenever HISTLIM was already bound; when it succeeds HISTMAX >= HISTLIM; with a missing file it keeps HISTLIM, sets HISTMAX to HISTLIM + 5 and HISTSTORE to 0, or fails if HISTLIM was unbound (all rules: `InterpretRules`, `InterpretFails`) |
| `Settings.InterpretFails` | fch.py:59-68 | getConfig fails exactly when `limit` is unusable and HISTLIM was never bound |
| `Settings.InterpretRules` | fch.py:59-73 | HISTLIM is the valid `limit` or the previous value; HISTMAX is HISTLIM plus a valid `max`, otherwise plus 5; HISTSTORE is a valid `store`, otherwise 0; HISTMAX >= HISTLIM |
| `Settings.WrittenLimitTakesEffect` | fch.py:59-63 | after writing a non-negative `limit`, getConfig succeeds and uses it |
| `Settings.WrittenStoreTakesEffect` | fch.py:69-71 | after writing a non-negative `store`, getConfig changes only HISTSTORE |
| `Text.FirstLine` | fch.py:98 | the first line is the longest prefix without a line boundary; an empty text gives "" |
| `Text.FirstLineOfLines` | fch.py:98 | for a multi-line text the first line is the text before the first boundary |
| `Text.Label` | fch.py:97-101 | a label is one line; for any width >= 1 it is at most `max(limit, 7)` characters long; at width 0 the slice `[:-1]` keeps it as long as the first line (or "(empty)") |
| `Text.LabelCases` | fch.py:97-101 | a first line longer than `limit` becomes its first `limit-1` characters plus "…", so the label is exactly `limit` long; a non-empty first line that fits is kept as is; an empty first line or empty text gives "(empty)" |
| `Text.LabelOfLines` | fch.py:98-101 | the label of a multi-line text is the label of its first line |
| `Text.StripNewlines` | fch.py:150 | the result is a prefix of the text followed only by `\n`s, and does not itself end in `\n` |
| `Text.StripNewlinesIdempotent` | fch.py:150 | stripping a stripped text changes nothing |
| `Text.StripNewlinesIgnoresNewlines` | fch.py:150 | trailing newlines added to a capture do not change what is recorded |
| `History.Truncated` | fch.py:86-87 | the result is a suffix of the history; with a positive cap its length is min(length, cap); with cap 0 it is the history unchanged |
| `History.SuffixWellFormed` | fch.py:87 | truncating to a suffix keeps "no empty entry, no two adjacent equal entries" |
| `History.Ignored` | fch.py:150-154 | a capture made only of newlines, the empty one included, is always ignored (both conditions: `AppendUnchangedIff`) |
| `History.AfterAppend` | fch.py:149-156 | appendHist adds at most one entry; when it changes the history the newest entry is the stripped capture; without a cap the old history is a prefix of the new one (exact result: `AppendRecords`, `AppendUnchangedIff`) |
| `History.AppendUnchangedIff` | fch.py:149-156 | appendHist leaves the history unchanged if and only if the stripped text is empty or equals the newest entry |
| `History.AppendRecords` | fch.py:149-156 | otherwise the stripped text becomes the newest entry and the older entries are the newest ones of the old history; without a binding cap the result is old history plus the stripped text |
| `History.AppendKeepsWellFormed` | fch.py:149-156 | appendHist, cap included, keeps "no empty entry, no two adjacent equal entries" |
| `History.AppendWithinCap` | fch.py:149-156 | with a positive cap, a history within the cap stays within it |
| `History.IgnoredTruncated` | fch.py:86-87 | truncation keeps the newest entry, so it never changes whether appendHist ignores a capture |
| `History.TruncatedSuffix` | fch.py:86-87 | dropping old entries that the cap would drop anyway does not change the truncated history |
| `History.AppendTruncated` | fch.py:149-156 | appending under the cap gives the same history as appending uncapped and truncating afterwards |
| `History.AppendTwiceOnce` | fch.py:153-155 | appending the same capture twice has the effect of appending it once |
| `History.DuplicateSuppressedScenario` | fch.py:149-156 | append("x") twice grows a history whose newest entry is not "x" by exactly one entry |
| `Menu.Reverse` | fch.py:114 | position k of the reversed history is entry `len-1-k` |
| `Menu.Slice` | fch.py:117 | Python slicing with clamped bounds |
| `Menu.Picks` | fch.py:118-124 | one item per entry, in order, titled by its label and copying its full text |
| `Menu.BuildMenu` | fch.py:112-142 | the source's loops build exactly the specified menu |
| `Menu.PickOf` | fch.py:118-124 | an entry's item copies back the full entry; its title is one line of at most 40 characters |
| `Menu.MenuOf` | fch.py:112-142 | the menu has HISTLIM + 2 top-level items when the history exceeds HISTLIM, else one per entry plus one; "Quit" is always last (contents: `MenuWithOverflow`, `MenuWithoutOverflow`) |
| `Menu.MenuWithoutOverflow` | fch.py:134-142 | when the history fits the display limit, every entry is a top-level item, newest first, followed by "Quit" |
| `Menu.MenuWithOverflow` | fch.py:115-142 | otherwise exactly HISTLIM newest entries at the top level, then "More..." holding reversed positions [HISTLIM, min(HISTMAX, len)), then "Quit" |
| `Menu.PickItems` | fch.py:118-124 | each of rebuildMenu's loops yields one item per entry, in order, each copying back its entry's full text |
| `Menu.ThreeEntriesScenario` | fch.py:112-142 | history a, b, c with limit 3 gives items c, b, a and "Quit" |
| `Poller.Changed` | fch.py:172 | a failed read never fires, and neither does a read equal to the last observed value |
| `Poller.Observe` | fch.py:172-173 | a failed read keeps the last observed value; otherwise it becomes the read |
| `Poller.PollFiresOnce` | fch.py:172 | a second poll with the same read never fires |
| `Poller.Baseline` | fch.py:164-173 | after a run the last observed value is the initial read or one of the run's reads |
| `Poller.AnyChange` | fch.py:167-174 | a run in which every read fails never calls clipbOnchange |
| `Poller.Recorded` | fch.py:167-175 | without a cap, a run only appends to the history, at most one entry per poll |
| `Poller.LastSuccess` | fch.py:162-173 | the most recent successful read is the initial read or one of the run's reads |
| `Poller.BaselineIsLastSuccess` | fch.py:162-175 | after any run of polls, the last observed value is the most recent successful read |
| `Poller.RecordedWellFormed` | fch.py:167-175 | whatever the clipboard does, a well-formed history stays well-formed |
| `Poller.RecordedWithinCap` | fch.py:167-175 | with a positive store cap, a history within the cap stays within it over any run |
| `Poller.QuietRunKeepsHistory` | fch.py:167-175 | a run in which no poll fires leaves the history unchanged |
| `Poller.Captured` | fch.py:172-174 | a run records at most one capture per poll |
| `Poller.UncappedLength` | fch.py:149-175 | without a cap, the history grows by exactly the number of polls that fire with a capture appendHist does not ignore |
| `Poller.RecordedTruncated` | fch.py:149-175 | truncating after every recorded capture leaves the newest entries of the uncapped run, however long the run |
| `Poller.FromEmptyKeepsNewest` | fch.py:149-175 | from an empty history with cap C > 0, a run that records N captures ends with min(N, C) entries: the last min(N, C) of the N recorded captures, in order |
| `App.Fch.constructor` | fch.py:19-23 | the process starts with an empty history and unbound settings |
| `App.Fch.GetConfig` | fch.py:59-73 | the globals become the interpreted settings; on a NameError nothing changes |
| `App.Fch.LoadHistory` | fch.py:75-82 | the history becomes the loaded list, or empty |
| `App.Fch.SaveHistory` | fch.py:84-87 | the history becomes its truncation to HISTSTORE |
| `App.Fch.AppendHist` | fch.py:149-156 | the history becomes the one appendHist specifies, truncation included |
| `App.Fch.RebuildMenu` | fch.py:112-143 | the icon's menu becomes the menu of the current history and settings |
| `App.Fch.ClipbOnchange` | fch.py:158-160 | appends the new text, then rebuilds the menu from the new history |
| `App.Fch.Watch` | fch.py:162-175 | over a run of reads: a poll fires only on a successful read that differs from the last observed value, and only then updates that value; the history is the run's recorded history; the menu is rebuilt if any poll fired |

## Left out

- File I/O: `check`, the YAML parsing and dumping in `read`/`readAll`/`write`/`loadHistory`/`saveHistory`, and a failing file write. The files are values passed in, or the returned document.
- A history file holding non-string items. The model's history is a sequence of strings.
- A YAML document that is not a mapping (`data.get` would raise). The model's document is always a key/value list.
- The clipboard calls `pyperclip.paste` and `pyperclip.copy` (`on_select`). A read is an `Option<string>` parameter; a menu item records the text it would copy.
- pystray menu rendering, `icon.update_menu`, `quit`/`icon.stop`, the PIL icon in `makeIco`, and the AppKit activation policy. These are UI and platform bindings.
- Threads, `time.sleep`, and the unbounded `while True` loop of `clipbWatch`. `App.Fch.Watch` covers any finite prefix of the loop.
- A `\r\n` pair, which `str.splitlines` treats as one boundary, is not modelled as a pair: the first line ends at its `\r` either way.
