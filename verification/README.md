# Ranking, filtering and numbering of predicted horizons

The horizon dump script predicts a horizon mask over a crop of a seismic cube,
extracts the connected surfaces ("horizons") as point clouds, and writes the
largest of them to disk. The logic the script implements itself is its last
step. It sorts the horizons by size, largest first, with a stable sort. It
computes the footprint area of the crop from the first two `(min, max)` pairs
of `cube_crop`. It then walks the sorted list and keeps every horizon whose
share `len(h) / area` reaches `area_share`. Each kept horizon is written to
`<dir>/Horizon_<ctr>` and announced with `Horizont <ctr> is saved`, and only
kept horizons advance `ctr`.

This project models that step in Dafny, as pure functions over sequences:

- `horizons.dfy`: a horizon is its point cloud; its size is the number of points.
- `area.dfy` (module `CropArea`): the footprint area. A crop with fewer than
  two axes raises `IndexError`. With ordered bounds, the area is the number of
  `(x, y)` columns of the footprint.
- `sizesort.dfy` (module `SizeSort`): the stable descending sort by size. It is
  written as an insertion sort and proved to be the only possible result of
  any stable descending sort, so it stands for Python's `list.sort(key=len,
  reverse=True)`.
- `naming.dfy` (module `Naming`): `str` of a counter, POSIX `os.path.join`, the
  file path and the progress message. Distinct counters give distinct paths
  and distinct messages.
- `dump.dfy` (modules `Dump` and `DumpProperties`): the area-share test, the
  loop as a fold over a state of (effects so far, counter), and the whole step
  `RankAndDump` with its error cases. The loop's effects are a trace of
  events: `Dumped(horizon, path)` for a call to the horizon writer, then
  `Printed(message)` for the call to `printer`.

`len(h) / area` is modelled as exact division of reals, and `area_share` is a
`real`. A zero area raises `ZeroDivisionError` only when there is at least
one horizon, because the division happens inside the loop body. A negative
area (reversed bounds) raises nothing; the test is then evaluated as written.

The code performs no validation of `area_share` and has no configuration
error for it: any value is accepted and compared as written. The model
follows the code. The code also allows a horizon with no points.

## Model

| member | source | states |
|---|---|---|
| CropArea.Area | scripts/dump_horizons.py:63 | reading the area fails, with `IndexError`, exactly when `cube_crop` has fewer than two axes |
| CropArea.AreaIsFootprintSize | scripts/dump_horizons.py:63 | for ordered bounds the area equals the number of `(x, y)` columns in the footprint, and the footprint holds exactly the columns inside the first two ranges |
| CropArea.AreaIgnoresDepth | scripts/dump_horizons.py:63 | two crops that agree on the first two axes have the same area, whatever their depth range |
| SizeSort.Insert | scripts/dump_horizons.py:62 | inserting into a sorted list keeps it sorted and adds exactly one copy of the horizon |
| SizeSort.InsertWithSize | scripts/dump_horizons.py:62 | the inserted horizon comes first among the horizons of its own size, and the horizons of every other size keep their order |
| SizeSort.SortBySize | scripts/dump_horizons.py:62 | the result is sorted by non-increasing size and is a permutation of the input |
| SizeSort.SortBySizeIsStable | scripts/dump_horizons.py:62 | for every size, the result lists the horizons of that size in their input order (stability) |
| SizeSort.StableSortUnique | scripts/dump_horizons.py:62 | two size-sorted lists that list every size's horizons in the same order are equal |
| SizeSort.SortBySizeIsTheStableSort | scripts/dump_horizons.py:62 | any sorted, stable rearrangement of the input is the model's sort result |
| SizeSort.SortIdempotent | scripts/dump_horizons.py:62 | sorting an already sorted list leaves it unchanged |
| Naming.Decimal | scripts/dump_horizons.py:69 | `str(ctr)`: the decimal digits of the counter; characterised by `Naming.DecimalIsCanonical` and `Naming.DecimalRoundTrip` |
| Naming.PathJoin | scripts/dump_horizons.py:69 | POSIX `os.path.join(dir, name)`; characterised by `Naming.PathJoinInjective` |
| Naming.HorizonPath | scripts/dump_horizons.py:69 | the path `join(dir, 'Horizon_' + str(ctr))`; characterised by `Naming.HorizonPathInjective` |
| Naming.SavedMessage | scripts/dump_horizons.py:70 | the message `'Horizont {} is saved'.format(ctr)`; characterised by `Naming.SavedMessageInjective` |
| Naming.DecimalIsCanonical | scripts/dump_horizons.py:69 | `str` of a counter is a non-empty string of digits with no leading zero |
| Naming.DecimalRoundTrip | scripts/dump_horizons.py:69 | reading back the digits of `str(n)` gives `n` |
| Naming.DecimalInjective | scripts/dump_horizons.py:69 | different counters give different `str` values |
| Naming.PathJoinInjective | scripts/dump_horizons.py:69 | joining two relative names to one directory gives equal paths only for equal names |
| Naming.HorizonPathInjective | scripts/dump_horizons.py:69 | `join(dir, 'Horizon_' + str(i))` equals the same for `j` only if `i == j` |
| Naming.SavedMessageInjective | scripts/dump_horizons.py:70 | the messages for counters `i` and `j` are equal only if `i == j` |
| Dump.Passes | scripts/dump_horizons.py:67 | the test `len(h) / area >= area_share` with exact division; characterised by `Dump.PassesIsThreshold` and `Dump.PassesMonotone` |
| Dump.PassesIsThreshold | scripts/dump_horizons.py:67 | for a positive area, `len(h) / area >= area_share` holds exactly when `len(h) >= area_share * area` |
| Dump.PassesMonotone | scripts/dump_horizons.py:67 | for a positive area, a horizon at least as large as a passing one passes too |
| Dump.Survivors | scripts/dump_horizons.py:66-67 | the kept horizons are a subsequence of the list, so none is altered and their order is kept |
| Dump.SurvivorsCount | scripts/dump_horizons.py:66-67 | each horizon occurs among the kept ones as often as in the list if it passes, and never if it fails |
| Dump.SurvivorsAreThePassing | scripts/dump_horizons.py:66-67 | a horizon is kept exactly when it is in the list and passes the test |
| Dump.NoneSurviveAfterFailure | scripts/dump_horizons.py:62-67 | for a positive area, if the largest horizon of a sorted list fails, nothing is kept |
| Dump.AllFailAfterFailure | scripts/dump_horizons.py:62-67 | for a positive area, if the largest horizon of a sorted list fails, every horizon of the list fails |
| Dump.SurvivorsArePrefix | scripts/dump_horizons.py:62-67 | for a positive area and a sorted list, the kept horizons are a prefix of the list and every later horizon fails the test |
| Dump.ExpectedAt | scripts/dump_horizons.py:65-71 | in the reference trace the `i`-th kept horizon is written, unchanged, to the path numbered `base + i`, and the message after it carries `base + i` |
| Dump.ExpectedCons | scripts/dump_horizons.py:68-71 | writing out `[h] + s` writes `h` with counter `base` and announces it, then writes out `s` from `base + 1` |
| Dump.ExpectedAppend | scripts/dump_horizons.py:65-71 | writing out `a + b` is writing out `a`, then `b` with the counter advanced by the length of `a` |
| Dump.Step | scripts/dump_horizons.py:67-71 | one pass of the loop body; characterised by `Dump.StepKeeps`, `Dump.StepSkips` and `Dump.Loop` |
| Dump.StepKeeps | scripts/dump_horizons.py:67-71 | on a passing horizon the body writes it to the path for the current counter, prints the message for that counter, and advances the counter by one |
| Dump.StepSkips | scripts/dump_horizons.py:67 | on a failing horizon the body writes nothing, prints nothing and leaves the counter alone |
| Dump.Loop | scripts/dump_horizons.py:65-71 | the loop appends exactly the reference trace of the kept horizons, numbered from the current counter, and the counter ends advanced by their number; skipped horizons leave no event and do not move the counter |
| Dump.RankAndDump | scripts/dump_horizons.py:62-71 | the step fails exactly for a crop with fewer than two axes (`IndexError`) or a zero area with horizons present (`ZeroDivisionError`); otherwise `ds.horizons` ends as the stable descending sort of the input; for a zero area (no horizons) nothing is written or printed and the counter stays 0; for a non-zero area the trace is the reference trace of the kept horizons and the counter ends at their number |
| DumpProperties.AllPassingSurvive | scripts/dump_horizons.py:66-67 | a sorted list whose every horizon passes is kept whole |
| DumpProperties.RankAndDumpWritesPrefix | scripts/dump_horizons.py:62-71 | for a positive area the step succeeds; the written horizons are the first `ctr` sorted horizons, numbered 0 to `ctr - 1` in order; each of them passes and every later one fails |
| DumpProperties.WrittenNamesDistinct | scripts/dump_horizons.py:69-70 | within one run, no two written horizons share a path and no two progress messages are equal |
| DumpProperties.RankAndDumpKeepsPassingSorted | scripts/dump_horizons.py:62-71 | a sorted list whose every horizon passes is written out whole, in its own order, numbered from 0 |
| DumpProperties.RankAndDumpIdempotent | scripts/dump_horizons.py:62-71 | running the step again on the horizons it wrote, in the order it wrote them, gives the same order, the same paths and messages, and the same final counter |
| DumpProperties.SingleColumnDropped | scripts/dump_horizons.py:62-71 | a one-column horizon in a 10 x 10 footprint is dropped at area share 0.5: nothing is written or printed and the counter stays 0 |
| DumpProperties.SingleColumnWritten | scripts/dump_horizons.py:62-71 | the same horizon at area share 0.001 is written to `out/Horizon_0`, then `Horizont 0 is saved` is printed, and the counter ends at 1 |

## Left out

- Setting `CUDA_VISIBLE_DEVICES` (scripts/dump_horizons.py:23): a process-wide side effect with no logic of its own.
- Loading the cube index and geometries (scripts/dump_horizons.py:26-28): I/O into the `seismiqb` library, which is not part of this model.
- Grid generation, crop assembly and point-cloud extraction (`make_grid`, `assemble_crops`, `get_point_cloud`, scripts/dump_horizons.py:32, 49, 55): their algorithms live in `seismiqb`, which is not part of this model. The horizons they produce are the input of `RankAndDump`.
- The prediction pipeline, model loading and inference (scripts/dump_horizons.py:36-48): a foreign framework and neural-network numerics.
- The progress messages outside the ranking step (scripts/dump_horizons.py:29, 51, 56): fixed strings with no logic.
- Creating the output directory (scripts/dump_horizons.py:58-60): filesystem I/O that does not affect which horizons are written or how they are named.
- Writing a horizon file with `dump_horizon` (scripts/dump_horizons.py:68): file I/O, modelled only as a `Dumped(horizon, path)` event. The geometry argument is the same for every call and is not recorded.
- The `printer` callable (scripts/dump_horizons.py:70): modelled as a `Printed(message)` event. Where the message ends up is decided by the caller.
- Command-line and JSON configuration parsing, and logging setup (scripts/dump_horizons.py:74-100): plumbing.
- A failing write or print is not modelled: if `dump_horizon` (scripts/dump_horizons.py:68) or `printer` (scripts/dump_horizons.py:70) raises, Python stops the loop after the files and messages already produced. `RankAndDump` assumes both calls return, so such a partial run followed by an error cannot be expressed.
- Floating-point division in `len(h) / area`: modelled as exact division of reals, so rounding at the threshold boundary is not modelled.
- Dump.RankAndDump: when the step raises, Python has already sorted `ds.horizons` in place; the error result does not carry that sorted list.
