# Matrix keyboard sweep, modelled in Dafny

The repository drives a key matrix from a Raspberry Pi. Rows are outputs. Columns are inputs with pull resistors, and each key has a series diode. One scanning algorithm appears in four places:

- `scan_keys`, the game's scanner;
- `scan_matrix_reversed`, the reversed diode test;
- `scan_matrix`, the diode test;
- `test_gpio_matrix`, the pull-up test.

Each scanner does the same steps:

1. Drive every row to its idle level. The pull-up test skips this and relies on the rows its setup and previous sweep left idle.
2. Make one row active at a time and let it settle.
3. Read each column. Confirm a press by reading it again after a debounce delay.
4. Look the cell up in a key map.

The game's scanner then drops the row, waits for release with a 2 s timeout, and returns the first symbol it found. The diagnostic scanners keep going to the end of the sweep and print every confirmed position through a de-duplication rule. Around these sit a plain probe grid, a row-toggling pin test, and the game's quiz bookkeeping.

The model has one sweep, `Scan.Sweep`, parameterised by a `Scheme`:

- which level is the active row level;
- which column level means pressed;
- the settle and debounce delays;
- whether the rows are reset first;
- what happens on a confirmed press: drop the row then wait, wait then drop the row, or keep scanning;
- the release policy: no wait, a bounded wait, or a wait until release.

The four scanners are constants of that type, defined in `Scanners`.

Modelling conventions:

- **Time.** Time is an integer tick in microseconds. Sleeps advance the tick and reads take no time.
- **Hardware reads.** A read is an `Oracle`: a function from the drive levels of every row, the column and the tick to the level the column shows. The main model places no condition on it.
- **Row drives.** Every drive is logged as a `Drive(row, level)`. `Lines.OneHot` states that at most one row is active after every drive.
- **Physics.** The `Physics` module adds a concrete oracle built from key contacts and diodes, to examine the release wait.

Modules:

- `Wrappers`: `Option`.
- `Lines`: levels, drive logs, and the one-active-row invariant.
- `Matrix`: cells, key maps, pin tables, labels, and row-major order.
- `Dedup`: the report de-duplication rule.
- `Release`: the release wait.
- `Scan`: the generic sweep and what its contract implies.
- `Scanners`: the four scanners.
- `Physics`: contact wiring, and the release-wait finding.
- `ProbeGrid`: `test_single_position`, `test_matrix` and `test_individual_pins`.
- `Quiz`: candidate letters, available questions, and the third level's word pool.

## Model

| member | source | states |
|---|---|---|
| Lines.RaiseKeepsOneHot | keyboard_game.py:69 | raising one row while all rows are idle leaves exactly that row active, so at most one row is active |
| Lines.DropKeepsOneHot | keyboard_game.py:89 | dropping the only active row leaves every row idle, and at most one row stays active |
| Lines.OneHotAtEveryStep | keyboard_game.py:64-89 | if a drive log keeps the one-active-row invariant, then after every prefix of it at most one row is active |
| Lines.ReplayRows | keyboard_game.py:64-70 | after a drive log, a row that no drive touches keeps its starting level, and a driven row is at the level of the last drive of that row |
| Matrix.GameKeysFit | keyboard_game.py:11-23 | the game's key map has one row per row pin (5) and one entry per column pin (6), and every entry is a non-empty symbol |
| Matrix.DiagKeysFit | reversed_diode_test.py:25-36 | the diagnostic key map has one row per row pin (6) and one entry per column pin (5) |
| Matrix.DiagLabels | reversed_diode_test.py:104-108 | for every cell of the 6×5 matrix the label is never "OUT OF BOUNDS"; it is "None" exactly for the four empty cells of the last row, and otherwise the entry's letter |
| Matrix.FittingMapNeverOutOfBounds | diode_matrix_test.py:107-111 | for any key map that fits the pin lists, the out-of-bounds label is unreachable and an empty entry is labelled "None" |
| Matrix.RowMajorEnumerates | keyboard_game.py:68-72 | the row-then-column visiting order lists rows×cols cells, all in range, each strictly after the one before, and every cell of the matrix appears |
| Matrix.RowMajorPrefix | keyboard_game.py:68-72 | the cells visited before (r, c) are a prefix of the full visiting order |
| Dedup.Observe | reversed_diode_test.py:99-116 | a detection is reported exactly when its position differs from the last reported one or more than the window has passed since it; a report records position and time, and a suppressed detection leaves the memory untouched |
| Dedup.FirstAlwaysReported | reversed_diode_test.py:70-101 | with the initial memory (no last key), the first detection is always reported |
| Dedup.FilterReportsAndMemory | reversed_diode_test.py:99-116 | over a sweep's detections, the reports are a subset of the detections, and the final memory is the last report, or the initial memory if nothing was reported |
| Dedup.FilterSpacesRepeats | diode_matrix_test.py:102-104 | in the reports, a position repeated from the previous report is always more than the window later |
| Dedup.SpacedPairwise | gpio_test.py:82-84 | two consecutive reports of the same position are more than the window apart |
| Dedup.ChangingPositionsAllReported | reversed_diode_test.py:100 | when every detection's position differs from the one before it, every detection is reported |
| Release.AwaitRelease | keyboard_game.py:80-86 | polls the column every poll interval while it reads pressed, and every recorded poll saw it pressed; with a limit (the game's 2 s) it stops at the first non-pressed read or once more than the limit has elapsed, so the wait lasts at most limit + one poll; with no limit (the unbounded wait at gpio_test.py:100-102) it ends exactly at the first non-pressed read |
| Scan.ResetRows | keyboard_game.py:64-66 | drives every row, in order, to the idle level; afterwards every row is idle |
| Scan.ProbeCell | keyboard_game.py:73-75 | the first sample is the column read at the current tick; only when it reads pressed is the column re-read one debounce later, and only then does time advance; the cell's step ends at its last read |
| Scan.AfterHit | keyboard_game.py:80-86 | performs exactly one release wait after a confirmed press, starting at that tick, unless the policy never waits; it returns at the end of that wait plus the pause after it (the 0.1 s of gpio_test.py:105), or at once when there is no wait |
| Scan.HandleHit | keyboard_game.py:76-88 | on a confirmed press, drops the row before or after the wait, or keeps it active, as the scheme says: a stopping scheme appends exactly the drop of row r to the drive log, leaving every row idle with the one-active-row invariant kept, and a scanning scheme leaves the log as it was; it returns at the end of the wait plus the pause |
| Scan.ScanCell | keyboard_game.py:72-88 | one column step either keeps the sweep's promise for the cells so far with the drive log unchanged, or stops on the first confirmed press, in row r, with the drop of row r as the one drive added; either way the clock stands at the end of that cell's step |
| Scan.ScanRow | keyboard_game.py:68-89 | appends exactly the raise of row r and then its drop to the drive log, whether it probes all its columns left to right or stops on a hit in row r; afterwards the clock stands at the end of the last step (or, with no columns, one settle delay later per row) |
| Scan.ScanRows | keyboard_game.py:68-91 | the drive log is exactly the raise and then the drop of row 0, of row 1, and so on up to the last row opened (every row, or the row of the hit for a stopping scheme that stops); so at most one row is active at every drive and all are idle at the end; cells are probed in row-major order |
| Scan.RowDrivesAreOneHot | keyboard_game.py:68-89 | raising and then dropping each of the first n rows in turn keeps at most one row active after every drive and leaves every row idle |
| Scan.Sweep | keyboard_game.py:62-91 | a full sweep: every row is driven idle before any probe; the drive log is exactly the raise and then the drop of each row opened, row after row, so at most one row is active at any moment and all are idle at the end; probes follow row-major order and read what the oracle shows; a stopping scheme ends on its first confirmed cell and a scanning scheme examines every cell; each cell is first sampled when the step before it ended (the start, for the first), plus the settle delay when it opens a row; a step ends at its last sample, or, after a confirmed press the policy waits on, at the end of that press's release wait plus the pause; the sweep ends when its last step ends; there is one release wait per detection, starting at its re-sample |
| Scan.ReadsFramedByDrives | keyboard_game.py:68-89 | in any sweep, the row of every probe is raised by drive 2r from a state with every row idle and dropped by drive 2r+1; each probe's samples read exactly the row levels the log reached just after that raise; every release wait polls with the levels just after the raise, or just after the drop for a scheme that drops the row first |
| Scan.FoundIsFirstConfirmed | keyboard_game.py:68-91 | a stopping sweep finds nothing exactly when it examined all cells and confirmed none; when it finds a cell, that cell is confirmed, every earlier cell was examined and not confirmed, and no later cell was read |
| Scan.GlitchesNeverConfirmed | keyboard_game.py:73-75 | if a column never reads pressed at two ticks one debounce apart, no cell is confirmed and nothing is reported or found |
| Scan.HeldKeyIsFound | keyboard_game.py:68-88 | if a key reads pressed at every tick while its row is probed, a stopping sweep finds that key or an earlier one in row-major order, never nothing |
| Scan.StoppingSweepWaits | keyboard_game.py:75-88 | a stopping sweep with a release wait waits exactly once, for the cell it found, and not at all when it finds nothing |
| Scan.BoundedWaitsEnd | keyboard_game.py:81-86 | under a bounded policy, no release wait lasts longer than the timeout plus one poll |
| Scan.OnlyHitIsLast | keyboard_game.py:88 | when only the last probe can be confirmed, the sweep has at most that one detection |
| Scan.SweepDuration | keyboard_game.py:62-91 | a sweep that never waits, or that stops on its first press and waits with a timeout, ends no earlier than it started and at most rows × settle + rows × cols × debounce later, plus the timeout and one poll when it waits (the "never blocks for long" of line 63) |
| Scan.WaitsPrecedeLaterProbes | gpio_test.py:100-105 | every cell probed after a confirmed press is sampled no earlier than the end of that press's release wait plus the pause, and the sweep ends no earlier than the end of any wait plus the pause |
| Scan.HitsFromProbes | reversed_diode_test.py:92-97 | every detection comes from a probe whose two samples both read pressed |
| Scanners.ScanFirst | keyboard_game.py:62-91 | for any fitting key map: the key-map entry of the first confirmed cell with one release wait for it, or nothing with no wait and every cell examined unconfirmed; the call takes at most rows × settle + rows × cols × debounce + timeout + one poll |
| Scanners.ScanGame | keyboard_game.py:62-91 | the game's scanner returns a symbol exactly when it found a cell; the symbol is that cell's non-empty key-map entry; nothing means all 30 cells were examined and none confirmed; every release wait lasts at most 2 s plus one poll, and the whole call at most 5 × 0.8 ms + 30 × 50 ms + 2 s + 1 ms |
| Scanners.ScanKeys | keyboard_game.py:62-91 | the scanner as written: everything `ScanGame` promises, including the bound on the call's length, and the one release wait polls with all five rows LOW |
| Scanners.ScanKeysHeld | keyboard_game.py:76-88 | the corrected scanner: it returns the key-map entry of the cell it found, its one release wait polls with that cell's row still HIGH and the others LOW, and the call keeps `ScanGame`'s bound on its length |
| Scanners.Diagnose | reversed_diode_test.py:74-119 | a diagnostic sweep examines all 30 cells; its reports are the de-duplication of its detections in scan order, labelled from the key map, never "OUT OF BOUNDS"; the memory carried forward is the rule's final memory; without a release wait the sweep takes at most 6 settle delays and 30 debounce delays |
| Scanners.ScanMatrixReversed | reversed_diode_test.py:64-119 | rows idle LOW; the drive log raises each row HIGH and drops it LOW again before the next row (lines 81 and 118); HIGH means pressed; 0.3 s window; every cell is examined and reports follow the rule; one sweep takes at most 6 × 1 ms + 30 × 25 ms |
| Scanners.ScanMatrix | diode_matrix_test.py:62-122 | rows idle HIGH; the drive log pulls each row LOW and restores it HIGH before the next row (lines 80 and 121); HIGH means pressed; 0.3 s window; every cell is examined and reports follow the rule; one sweep takes at most 6 × 1 ms + 30 × 25 ms |
| Scanners.TestGpioMatrix | gpio_test.py:56-108 | rows idle HIGH with no reset; LOW means pressed; 0.5 s window; one unbounded release wait per detection; every cell probed after a detection is sampled no earlier than the end of its wait plus the 0.1 s pause, and the sweep ends after every wait and pause |
| Physics.IdleRowsReadIdle | keyboard_game.py:51-57 | with every row idle, a pulled column reads its resting level whatever keys are held |
| Physics.LoneRowReadsItsKey | keyboard_game.py:69-73 | with only row r active, a column reads pressed exactly when key (r, c) is closed |
| Physics.AsWrittenWaitEndsAtOnce | keyboard_game.py:78-86 | in the game's scanner as written, every release wait ends at its first read with no poll, whatever the keys do |
| Physics.HeldKeyReleasedAtOnce | keyboard_game.py:78-88 | with 'A' held for good, the scanner as written finds cell (0, 0), whose entry is 'A', and returns a key; its release wait ends at the tick it began, while 'A' is still closed |
| Physics.HeldWaitTracksKey | keyboard_game.py:80-86 | with the corrected order, every poll saw the key closed, and the wait ends only when the key is open or after more than 2 s |
| Physics.HeldKeyWaitedOut | keyboard_game.py:80-86 | with 'A' held for good, the corrected scanner finds 'A' and waits out the full timeout |
| ProbeGrid.SingleProbe | test_matrix.py:22-37 | raises the row, waits 10 ms, reads the column once and lowers the row; from all rows LOW the read sees only that row active, and the rows end as they started except row r, which is LOW |
| ProbeGrid.MatrixTest | test_matrix.py:48-53 | from all rows LOW, it probes the cells in row-major order; each reading is what the column showed with only its row HIGH; at most one row is HIGH at any moment; all rows end LOW |
| ProbeGrid.GridCoversOnce | test_matrix.py:48-53 | the readings cover every cell of the grid, once each, in strictly increasing row-major order |
| ProbeGrid.GameGridSize | test_matrix.py:3 | the grid over the game's pin lists takes exactly 30 readings |
| ProbeGrid.TogglePins | gpio_test.py:126-132 | drives each row LOW and then HIGH, in row order; every row ends HIGH, and from all HIGH at most one row is LOW at any moment |
| ProbeGrid.RaiseAll | gpio_test.py:134-136 | drives every row HIGH again, in order; every row ends HIGH |
| ProbeGrid.TestIndividualPins | gpio_test.py:119-136 | the whole drive sequence of the pin test: toggles in row order, then the reset; every row ends HIGH; from all HIGH at most one row is LOW at a time |
| Quiz.CandidatesMembership | keyboard_game.py:138 | a symbol is a level-2 candidate exactly when some key-map entry holds it and it is neither empty nor 'P' |
| Quiz.ExitKeyNeverAsked | keyboard_game.py:138 | 'P' and the empty string are never candidates |
| Quiz.GameCandidates | keyboard_game.py:138-142 | the game's key map yields 29 candidates, row by row, and the list is not empty |
| Quiz.Available | keyboard_game.py:211-213 | a question is kept exactly when its letter is a candidate of the key map |
| Quiz.AvailableKeepsAll | keyboard_game.py:211-213 | a filter that rejects no question keeps the list unchanged and in order |
| Quiz.QuestionLetters | keyboard_game.py:198-209 | the 25 questions ask for the 25 letters other than 'P' |
| Quiz.AllQuestionsAvailable | keyboard_game.py:198-213 | on the game's keyboard all 25 questions stay available, in order |
| Quiz.RemoveFirst | keyboard_game.py:250-251 | removes one occurrence of a word that is in the pool and leaves the pool unchanged otherwise |
| Quiz.PlayLevel3 | keyboard_game.py:222-287 | asked words plus the remaining pool are always the original pool; the level ends with an empty pool exactly when the pool empties; an empty pool means every word was asked; if the player never quits and always answers "continue", the level ends with an empty pool (or had no questions) |
| Quiz.Level3 | keyboard_game.py:210-225 | for any question table and key map, the asked words plus the remaining pool are exactly the words of the available questions; the level ends before its first round exactly when no question is available |
| Quiz.GamePool | keyboard_game.py:196-220 | with the game's question table and key map, the pool starts with all 25 words, in table order |

## Left out

- GPIO setup and cleanup, BOARD or BCM numbering, and pull-resistor calls are library side effects. The model keeps only the drive log and the read oracle. `setup_gpio` appears only as the requirement that rows start idle when a scanner does not reset them.
- Real time and floating point are left out. `time.sleep` and `time.time()` become integer microsecond ticks that only sleeps advance. A timing check compares the tick difference with the limit in microseconds.
- The endless loops around each scanner are left out, including the 10 ms pause between sweeps and Ctrl+C handling. One call models one sweep, and the de-duplication memory is passed from call to call.
- The printing of reports is left out. A report is the position, tick and label that would be printed.
- Audio (`play_audio`, the pygame mixer, file checks), menus and `input()` are I/O and have no logic to verify.
- `random.choice` becomes an arbitrary index function, taken modulo the pool size. The player's behaviour becomes arbitrary functions of the round number: a question's outcome, and the answer at the prompt.
- The level-1 and level-2 question loops and the main menu are left out, because they only sequence scanner calls and audio. The candidate list of level 2 is modelled.
- The column reads of `test_individual_pins` (gpio_test.py:139-144) are left out, because they only print. Its row drives are modelled.
- bt_monitor.c and bt_led.c (Bluetooth status through system commands and libgpiod) are not part of this model: they are I/O plumbing.
- single_pin_test.py is not part of this model: it is a print-only monitor.
- `test_all_rows_high` and `test_diode_direction` are not part of this model: they are interactive wiring probes that break the one-row-at-a-time scheme on purpose.
- `DEBOUNCE_TIME = 0.02` in keyboard_game.py:26 is unused. The game scanner debounces with `DEBOUNCE = 0.05` (keyboard_game.py:9, 74), and the model uses 50 ms.
- An empty key-map entry is returned as is by `scan_keys`, so it comes back as `None` while the sweep still stops and waits there. `Scanners.ScanFirst` returns the entry. The game's key map has no empty entry (`Matrix.GameKeysFit`).
- Scanners.TestGpioMatrix: the pull-up test's release wait has no timeout, so the model needs a horizon after which no key is held, and no bound on the sweep's length is stated.
- Release.AwaitRelease: an unbounded wait is proved to end only under a given horizon after which the column never reads pressed. The source itself would hang forever on a stuck key.

## Findings

| source | as written | input that shows it | evidently intended | confidence | as-written member | corrected member |
|---|---|---|---|---|---|---|
| keyboard_game.py:78 | the row is dropped LOW before the release wait at lines 80-86. With every row LOW and pull-down columns (line 57), the polled column reads LOW whether or not the key is held, so the wait always ends on its first read | key 'A' (row 0, column 0) held down throughout one call of `scan_keys`: 'A' is returned and the wait ends at once, so the next call returns 'A' again | wait for release with the row still HIGH and drop it afterwards, so that the wait ends only when the key is let go or after 2 s | not executed; follows from the wiring the code configures | Physics.HeldKeyReleasedAtOnce | Physics.HeldWaitTracksKey |
