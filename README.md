# Okifx name draw, modelled in Dafny

Okifx is a React component that draws names one at a time from a pool of
participants. It keeps two ordered lists of strings: `availableNames` (the
pool) and `drawnNames` (the history, in draw order). It also keeps the name on
display (`currentDraw`), an animation flag (`isAnimating`) and the text box
contents (`nameInput`). Four handlers change the lists:

- `addName` trims the text box and appends the result to the pool.
- `removeName(index)` drops one position of the pool.
- `drawName` starts a 100 ms timer over the pool and history as they are at
  that moment. Each tick shows a random entry of that captured pool. On the
  sixteenth tick the timer commits a random index: that entry leaves the
  captured pool by position and is appended to the captured history.
- `resetAll` appends the history to the pool and empties the history.

After every change these four handlers make, `saveData` writes the new pair
under the two keys `available-names` and `drawn-names` of a key-value store.

The model has four modules:

- `Text` (text.dfy) is JavaScript's `String.prototype.trim`.
- `Lists` (lists.dfy) is the index filter `filter((_, i) => i !== index)`.
- `Draw` (draw.dfy) holds the pure part of a draw: the timer's captured state
  (`Interval`), one callback (`Tick`), the commit (`CommitAt`), and a whole run
  of ticks (`Drive`).
- `App` (app.dfy) is the component as a class `Okifx`. Its fields are the
  component state, the store, and the pending timers (`intervals`). Each
  handler is a method whose postcondition gives the whole new state in terms
  of the old one.

Randomness is a parameter. `Math.floor(Math.random() * n)` becomes an index
below `n` supplied by the caller: `shownIndex` for the value shown on a tick,
`finalIndex` for the committed one. Each timer callback is one call of
`Okifx.Tick(j, …)` on the `j`-th pending timer. Other handlers may be called
between ticks, as the browser's event loop allows.

## Behaviour as written

The model follows the code, including where it is looser than one might expect:

- `addName` has no duplicate check, case-insensitive or otherwise: any
  non-blank trimmed text is appended.
- A draw ends on a tick count (`counter > 15`), not on the end of a sound.
- The committed entry is removed by position, not by name.
- The commit writes lists computed from the pair captured at draw start. A
  name added, or an entry removed, while the timer runs is undone by the
  commit (`Okifx.AddDuringDraw`). A reset during a draw is undone the same way.
- Nothing stops a second draw from starting while one runs: the Sortear button
  is only disabled on an empty pool. Each draw gets its own timer in
  `intervals`, and the first commit lowers `isAnimating` for all of them.

## Model

| member | source | states |
|---|---|---|
| `Text.SkipLeading` | okifx/src/App.js:44-45 | the scan from the left stops at the first non-space position (or the end), and everything it skipped is white space |
| `Text.SkipTrailing` | okifx/src/App.js:44-45 | the scan from the right stops just after the last non-space character (or at the left bound), and everything it skipped is white space |
| `Text.Trim` | okifx/src/App.js:44-45 | `trim()` returns a contiguous slice of the input, only white space lies outside it, and a non-empty result starts and ends with a non-space character |
| `Text.TrimEmptyIff` | okifx/src/App.js:44 | the trimmed text is empty (falsy) exactly when every character of the input is white space |
| `Text.TrimIdempotent` | okifx/src/App.js:44-45 | trimming an already trimmed string changes nothing, so every appended entry is in trimmed form |
| `Lists.FilterOutIndex` | okifx/src/App.js:53 | the index filter equals `s[..index] + s[index+1..]` for an index inside the list and leaves the list as it is for any other index |
| `Lists.FilterOutIndexMultiset` | okifx/src/App.js:77 | dropping a valid position removes exactly one occurrence of that element from the multiset and shortens the list by one |
| `Draw.CommitAt` | okifx/src/App.js:72-78 | the commit picks `pool[k]`, the new pool is the old pool without position `k`, and the new history is the old history with `pool[k]` appended |
| `Draw.CommitConserves` | okifx/src/App.js:72-81 | a commit keeps `|pool| + |history|` and the multiset of `pool + history`, picks an entry of the pool, and keeps the old history as a prefix |
| `Draw.Tick` | okifx/src/App.js:64-86 | a callback commits exactly when the counter before it is at least 15, and that commit is `CommitAt` of the final index over the captured pair (a pick from the captured pool, total count kept); otherwise it shows the captured entry at the shown index and increments the counter without touching the captured lists |
| `Draw.Drive` | okifx/src/App.js:63-87 | from counter `c`, a timer runs exactly `16 - c` ticks, every name shown is in the captured pool, the last name shown is the pick, and the run ends with the commit of the final index over the captured pair |
| `Draw.DrawFromStart` | okifx/src/App.js:58-88 | a draw started at counter 0 shows 16 names, all from the pool at draw start, then removes the final index from that pool and appends its entry to the history, keeping the multiset of all names |
| `App.SaveThenLoad` | okifx/src/App.js:18-41 | loading after a save gives back exactly the saved pair |
| `App.Okifx.constructor` | okifx/src/App.js:5-9 | the component starts with an empty text box, empty lists, nothing on display, no animation and no pending timer |
| `App.Okifx.LoadData` | okifx/src/App.js:18-32 | each list is replaced by its stored entry when that entry is present and kept when it is absent; nothing else changes |
| `App.Okifx.SaveData` | okifx/src/App.js:34-41 | both store entries are written: `available-names` with the given pool and `drawn-names` with the given history |
| `App.Okifx.SetNameInput` | okifx/src/App.js:224 | the text box holds the typed text |
| `App.Okifx.AddName` | okifx/src/App.js:43-50 | blank input changes nothing at all (lists, text box, store); otherwise the trimmed text is appended at the end of the pool, the history is unchanged, the new pair is saved and the text box is cleared |
| `App.Okifx.RemoveName` | okifx/src/App.js:52-56 | the pool loses only position `index` and keeps the order of the rest; an index outside the pool leaves it unchanged; the history is unchanged and the pair is saved |
| `App.Okifx.DrawName` | okifx/src/App.js:58-62 | on an empty pool nothing changes (no save, flag not raised); otherwise the flag is raised and a new timer captures the current pool and history with counter 0 |
| `App.Okifx.Tick` | okifx/src/App.js:64-87 | a non-final tick shows an entry of the captured pool and advances that timer only; the sixteenth clears the timer, shows the pick, sets both lists to the commit over the captured pair, saves that pair and lowers the flag |
| `App.Okifx.ResetAll` | okifx/src/App.js:90-97 | the pool becomes old pool followed by old history in draw order, the history empties, the display clears, and that pair is saved |
| `App.Okifx.ResetTwice` | okifx/src/App.js:90-97 | a second reset changes nothing: the pool is old pool followed by old history, the history is empty, the display is clear, that pair is saved, the text box, flag and timers are kept, and the total number of names is kept |
| `App.Okifx.FinishDraw` | okifx/src/App.js:63-87 | a timer at counter 0 that runs all its ticks ends with the commit of the final index over the pair it captured, saved, with the flag lowered and the timer gone |
| `App.Okifx.RunDraw` | okifx/src/App.js:58-88 | an uninterrupted draw on an empty pool does nothing; otherwise it moves the entry at the final index from the pool to the end of the history, saves the pair, keeps the multiset of all names and leaves no extra timer |
| `App.Okifx.AddDuringDraw` | okifx/src/App.js:65-82 | when a name is added while a draw runs, the commit still leaves exactly the lists computed from the pair captured at draw start, as if the add had not happened; the display shows the pick, the flag is lowered, no extra timer is left, and the text box is cleared when the text was not blank and keeps it otherwise |

## Left out

- `playSound` and its Web Audio oscillators, including the `success` cue after
  a commit: floating-point frequencies and times in a browser API, with no
  effect on the lists.
- The storage I/O itself: `window.storage`, JSON encoding and parsing,
  `async`/`await` ordering and the logged errors. The store is a record of the
  component's two entries, each absent or holding a list. A save writes both.
  Keys other than these two are not modelled, because the component never
  touches them.
- `setInterval`'s 100 ms timing and `Math.random()`. Ticks are explicit method
  calls, and the random indices are parameters below the captured pool's size.
- React's deferred state updates and re-rendering. Each setter takes effect
  when it is called. Every handler reads only the state it was rendered with,
  except the timer callback, which reads its captured pair.
- The JSX markup and the sound-button table.
- Text.Trim: strings are sequences of Unicode scalar values, while JavaScript
  strings are UTF-16 code units. Lone surrogates cannot be represented. This
  does not affect which characters count as white space.
