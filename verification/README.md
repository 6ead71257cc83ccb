# Trajectory format unifier and experiment registry, in Dafny

This project models two components of a pedestrian-trajectory toolkit and
proves properties of them.

- **The format unifier** is `file_format` in
  `scripts/01_trajectory_data_preperation/00_traj_file_format.py`. It takes a
  raw numeric table and the caller's column indices for id, frame, x, y and z.
  Frame and z may be absent. It returns the canonical five-column table
  `id, frame, x, y, z`, in six steps:
  1. It rejects a missing id, x or y index.
  2. It stably sorts the rows by (id, x).
  3. It synthesises frames `0..k-1` per pedestrian when no frame column is
     given.
  4. It fills z with zeros when no z column is given.
  5. It column-stacks the five columns.
  6. It stably re-sorts the result by (id, frame).
- **The experiment registry** is `helper/experiments.py`. It holds a record of
  calibration parameters with documented defaults and value domains, and a
  literal map from experiment names to records.

The model consists of six modules:

- `Wrappers`: `Option` and `Result`.
- `Tables`: rows, columns, and cell-wise row projections. It also holds the
  lemma that mapping a function over two permutations of a sequence gives two
  permutations.
- `StableSort`: the model of `np.lexsort` on two columns. The last key is
  primary, so the model is an insertion sort on a (primary, secondary) key. It
  is proved sorted, permutation-preserving and stable: inside every key, rows
  keep their input order. It is also proved the unique sequence with those
  three properties.
- `FrameSynthesis`: the frame vector built by walking a Python `set` of ids.
  The set's iteration order is not specified by Python, so it is an explicit
  parameter `order`. `order` must list every id of the table exactly once.
- `TrajFileFormat`: `file_format` itself, named `FileFormat`.
  - A table is its width plus its rows, and is rectangular.
  - Missing indices and out-of-range indices are `Failure`s. Out-of-range
    indices fail in the order numpy reads the columns: x and id at line 104,
    frame at 117, z at 122, y at 125.
- `Experiments`: the record, its defaults, all 29 registry entries written as
  `Default().(field := ...)`, and the domain predicate `Conforms`.

Line 122 of the format script assigns the z column to `frames` as well as to
`z`. So whenever a z index is given, the frame column of the output is the z
column, whatever the frame index was. The model keeps this behaviour. The
lemmas `ZOverwritesFrame`, `FrameIgnoredUnderZ` and `ZIndexWitness` exhibit
it, and it is most likely a latent bug.

Frame and z are therefore not independent: with a z index, the output frame
column is the z column (`ZOverwritesFrame`).

Idempotence is proved without a z index and for distinct (id, frame) pairs
(`IdempotentOnCanonical`). Outside those cases the code need not keep the
table: the first pass reorders rows that tie on (id, frame) by x, and with a
z index `ZIndexWitness` shows a canonical row losing its frame.

## Model

| member | source | states |
|---|---|---|
| TrajFileFormat.FileFormat | scripts/01_trajectory_data_preperation/00_traj_file_format.py:91-130 | fails with the missing-id, missing-x or missing-y error, checked in that order; succeeds exactly when id, x and y are given and every given index is a column; an out-of-range failure names one of the given indices that is not a column; on success keeps the row count, gives every row 5 cells and is ascending by (id, frame) |
| TrajFileFormat.FirstPass | scripts/01_trajectory_data_preperation/00_traj_file_format.py:100-107 | the first pass is a permutation of the input rows, ascending by id and then by x |
| TrajFileFormat.FirstPassStable | scripts/01_trajectory_data_preperation/00_traj_file_format.py:104-107 | rows with equal (id, x) keep their input order through the first pass |
| TrajFileFormat.Frames | scripts/01_trajectory_data_preperation/00_traj_file_format.py:109-117 | the frame vector has one entry per row, whether synthesised for any enumeration order of the ids or read from the frame column |
| TrajFileFormat.ZColumn | scripts/01_trajectory_data_preperation/00_traj_file_format.py:119-122 | the z vector has one entry per row; `AssembleProjects` states that, when a frame or z index is given, it is the first pass's z column with a z index and zero without one |
| TrajFileFormat.FrameColumn | scripts/01_trajectory_data_preperation/00_traj_file_format.py:116-122 | the frame vector after line 122 has one entry per row; `AssembleFrameIsZ` and `AssembleProjects` state it is the z column with a z index and the frame column with only a frame index; `AssembleNumbered` states the synthesised case |
| TrajFileFormat.Assemble | scripts/01_trajectory_data_preperation/00_traj_file_format.py:125 | the stacked table has one 5-cell row per input row; `AssembleProjects` (frame or z index given) and `AssembleNumbered` (neither, ascending enumeration) state what row k holds |
| TrajFileFormat.SecondPass | scripts/01_trajectory_data_preperation/00_traj_file_format.py:127-128 | the output is a permutation of the assembled table with 5-cell rows, ascending by id and then by frame |
| TrajFileFormat.SecondPassStable | scripts/01_trajectory_data_preperation/00_traj_file_format.py:127-128 | rows with equal (id, frame) keep their assembled order through the second pass |
| TrajFileFormat.AssembleProjects | scripts/01_trajectory_data_preperation/00_traj_file_format.py:116-125 | with a frame or z index, each assembled row is its first-pass row rearranged as id, frame source, x, y, z source, where the frame source is z whenever a z index is given |
| TrajFileFormat.ProjectsInput | scripts/01_trajectory_data_preperation/00_traj_file_format.py:104-128 | with a frame or z index, the output holds each input row, rearranged through that layout, exactly as often as the input does |
| TrajFileFormat.FrameVerbatim | scripts/01_trajectory_data_preperation/00_traj_file_format.py:116-120 | with a frame index and no z index, the output rows are the input's id, frame, x and y verbatim, as a multiset, and every output z is 0 |
| TrajFileFormat.AssembleFrameIsZ | scripts/01_trajectory_data_preperation/00_traj_file_format.py:121-125 | with a z index, every assembled row repeats its z value in the frame column |
| TrajFileFormat.ZOverwritesFrame | scripts/01_trajectory_data_preperation/00_traj_file_format.py:121-125 | with a z index, every output row has frame equal to z |
| TrajFileFormat.FrameIgnoredUnderZ | scripts/01_trajectory_data_preperation/00_traj_file_format.py:116-125 | with a z index and an in-range frame index, the result equals the one obtained with no frame index at all |
| TrajFileFormat.ZIndexWitness | scripts/01_trajectory_data_preperation/00_traj_file_format.py:122-125 | a canonical row (1, 7, 2, 3, 0) read with frame index 1 and z index 4 comes back as (1, 0, 2, 3, 0): its frame is lost |
| TrajFileFormat.AssembleTriples | scripts/01_trajectory_data_preperation/00_traj_file_format.py:125 | the assembled rows carry the first pass's (id, x, y) row for row |
| TrajFileFormat.PermutesTriples | scripts/01_trajectory_data_preperation/00_traj_file_format.py:104-128 | on success the multiset of output (id, x, y) triples equals the multiset of input (id, x, y) triples, for every frame/z choice and enumeration order |
| TrajFileFormat.NumberedStrictlySorted | scripts/01_trajectory_data_preperation/00_traj_file_format.py:109-115 | numbering id-sorted rows by their earlier rows of the same pedestrian yields rows strictly ascending by (id, frame) |
| TrajFileFormat.FirstPassIds | scripts/01_trajectory_data_preperation/00_traj_file_format.py:104-111 | the first pass's ids are ascending and every one of them is listed by the enumeration order |
| TrajFileFormat.AssembleNumbered | scripts/01_trajectory_data_preperation/00_traj_file_format.py:109-125 | without frame and z indices and with ascending enumeration, the assembled table is the reference `Numbered` table |
| TrajFileFormat.SynthesizedFramesAligned | scripts/01_trajectory_data_preperation/00_traj_file_format.py:109-128 | without frame and z indices and with ascending enumeration, the output is the first-pass rows as (id, count of earlier rows of that pedestrian, x, y, 0), unchanged by the second sort |
| TrajFileFormat.CanonicalAssemble | scripts/01_trajectory_data_preperation/00_traj_file_format.py:104-125 | on a table in the output layout with z = 0, read with indices 0-3 and no z, the assembled table is the first pass |
| TrajFileFormat.IdempotentOnCanonical | scripts/01_trajectory_data_preperation/00_traj_file_format.py:104-130 | a table with distinct (id, frame) pairs in ascending order and z = 0, read with indices 0-3 and no z index, comes back unchanged |
| TrajFileFormat.ScenarioExample | scripts/01_trajectory_data_preperation/00_traj_file_format.py:104-128 | rows (1,0,5), (1,0,3), (2,0,9) read with id 0, x 1, y 2 and ids enumerated 1, 2 give (1,0,0,5,0), (1,1,0,3,0), (2,0,0,9,0) |
| StableSort.SortBy | scripts/01_trajectory_data_preperation/00_traj_file_format.py:104-107 | the sort is a permutation of its input, ascending by the two-column key, and keeps the input order of the rows of every key |
| StableSort.SortedFixpoint | scripts/01_trajectory_data_preperation/00_traj_file_format.py:128 | sorting rows that are already sorted changes nothing |
| StableSort.StableUnique | scripts/01_trajectory_data_preperation/00_traj_file_format.py:104-128 | two sorted sequences with the same rows in the same order inside every key are equal, so sorted-and-stable determines the sort's result |
| StableSort.StrictlySortedUnique | scripts/01_trajectory_data_preperation/00_traj_file_format.py:128 | a sorted permutation of a sequence with strictly ascending keys is that sequence |
| FrameSynthesis.SynthFrames | scripts/01_trajectory_data_preperation/00_traj_file_format.py:109-115 | every synthesised frame is a whole number, at least 0 and below the number of rows; `FramesLength` and `FramesAligned` state its length and its entries |
| FrameSynthesis.FramesLength | scripts/01_trajectory_data_preperation/00_traj_file_format.py:109-115 | for any duplicate-free enumeration covering the ids, the synthesised vector has one entry per row |
| FrameSynthesis.FramesAligned | scripts/01_trajectory_data_preperation/00_traj_file_format.py:109-115 | for id-sorted rows and ascending enumeration, entry k of the synthesised vector is the number of earlier rows with row k's id |
| FrameSynthesis.RankIncreases | scripts/01_trajectory_data_preperation/00_traj_file_format.py:113-115 | a later row of the same pedestrian has a larger rank |
| FrameSynthesis.UnorderedMisaligns | scripts/01_trajectory_data_preperation/00_traj_file_format.py:111-115 | ids 1, 1, 2 enumerated as 2, 1 get frames 0, 0, 1 although their ranks are 0, 1, 0 |
| Experiments.Default | helper/experiments.py:27-42 | the dataclass defaults lie in every documented domain; `DefaultConforms` and `SimJupedsimDefaults` name the default values |
| Experiments.DefaultConforms | helper/experiments.py:7-42 | the dataclass defaults lie in every documented domain; link, unit and fps default to "empty", 1 and 25 |
| Experiments.RegistryConforms | helper/experiments.py:7-24 | every registry entry has unit 1 or 100, reflections of +-1, 0/1 camera and time flags, fps > 0, Min <= Max when both are present, and distinct non-negative rotation indices when y_rotate is present |
| Experiments.SimJupedsimDefaults | helper/experiments.py:243-250 | the fields `sim_jupedsim` does not name take their defaults: no shift, reflections 1, rotation indices 0 and 1, no Min/Max, camera 0, temporal 0 |
| Experiments.AbsentYRotate | helper/experiments.py:136-159 | y_rotate is absent for exactly the caserne and motivation entries |
| Experiments.Lookup | helper/experiments.py:44-391 | a lookup finds a record exactly for the registered names, and the record conforms to the documented domains |

## Left out

- Argument parsing (`get_parser_args`, lines 15-73 of the format script) is command-line plumbing.
- `read_sqlite_file` (lines 133-147) is database I/O. It projects the columns frame, id, x, y, ox, oy in that order.
- The `__main__` loop (lines 150-189) does file I/O: `np.loadtxt`, and `np.savetxt` with `%d`/`%.4f` formatting and CRLF line ends.
- Cell values are `real`. Floating-point rounding, NaN ids or keys, and signed zeros are not modelled; the unifier only compares and copies values.
- Column indices are natural numbers. numpy's negative, wrapping indices are not modelled.
- The concrete hash order of a Python `set` is not modelled. It is the parameter `order`, which must enumerate the ids.
- The registry's `length`, `radius` and `circumference` are not checked against each other. That would need pi and float approximation, and the code asserts no relation between them.
- No downstream use of the registry (reflection, rotation, shift, unit scaling) is modelled. None appears in `helper/experiments.py`.
- Experiments.Lookup: returns `None` for an unknown name, where Python's subscript raises `KeyError`.
- FrameSynthesis.FramesAligned: proved only for ascending enumeration, as Python gives no order. `UnorderedMisaligns` shows another order misnumbering rows.
- TrajFileFormat.IdempotentOnCanonical: states idempotence without a z index and for distinct (id, frame) pairs only. Outside those cases the code need not keep the table: `ZIndexWitness` is one such input.
