# MATPOWER case import: from the decoded file to the 0-based `ppc` case

This project models the core of pandapower's MATPOWER converter
(`pandapower/converter/matpower/from_mpc.py`). The converter turns a decoded
MATPOWER version-2 case into the `ppc` dictionary that the network builder
consumes, in three steps:

1. **Copy.** The case entries `version`, `baseMVA`, `bus`, `gen`, `branch` and
   the optional `gencost` are copied out of the decoded file. There are two
   layouts:
   - a struct stored under the case name, which wins when it is present;
   - the five tables stored directly at the top level, used only when all
     five are there.
   When neither layout matches, an error is logged and nothing is copied.
2. **Index shift.** The bus numbers are lowered by one, from MATLAB's 1-based
   numbering to 0-based numbering. This edits bus column 0, branch columns 0
   and 1, and gen column 0.
3. **Tap repair.** Every branch tap ratio (column 8) equal to 0, which means
   "no transformer", becomes the neutral tap 1.

The index shift and the tap repair edit the tables in place. The arrays they
edit are the decoded file's own arrays.

Modules:

- `Payload` (`payload.dfy`) covers the decoded file. A value is a table, a
  number, a text or a struct. `Extract` specifies what the copy writes and
  what it reports; `CopyNamed` and `CopyFlat` do the same for each layout.
- `Tables` (`tables.dfy`) covers the column edits. A table is read as a
  `Grid`, its rows as sequences of reals.
  - `OffsetColumn` and `RepairTaps` specify the two edits on a grid.
  - `OffsetColumnInPlace` and `RepairTapsInPlace` perform them on an
    `array2<real>`, one row at a time, and are proved against those
    functions.
- `FromMpc` (`from_mpc.dfy`) covers the converter itself. The class `Ppc`
  holds the `ppc` dictionary as a map that its methods update. The module
  also gives each conversion step's error, the whole conversion `Mpc2Ppc`,
  and the properties of the normalised tables.

Failures are modelled as values: `Failure(MissingAttribute(name))`,
`Failure(MissingKey(key))` and `Failure(NotATable(key))`. Each stands for the
`AttributeError`, `KeyError`, or `IndexError`/`TypeError` that Python raises
at the same point.

When no layout matches, the code only logs an error and leaves `ppc` empty.
The index shift then raises `KeyError('bus')` at line 71, so
`ConversionError` and `Mpc2Ppc` report `MissingKey("bus")` in that case.

## Model

| member | source | states |
|---|---|---|
| Payload.CopyNamed | pandapower/converter/matpower/from_mpc.py:78-89 | Named layout: the copy completes iff the struct has all five required attributes. Every value written is the struct's attribute of that name. On completion the keys written are the five required keys plus `gencost` exactly when the struct has it, and the "gencost is not in mpc" note is raised exactly when it does not. Otherwise the copy reports a required attribute the struct lacks. |
| Payload.NamedCopyStopsAtFirstMissing | pandapower/converter/matpower/from_mpc.py:80-84 | When a named copy stops, the missing attribute is the first one absent in the order version, baseMVA, bus, gen, branch. Exactly the attributes before it stay written, and nothing else. |
| Payload.CopyFlat | pandapower/converter/matpower/from_mpc.py:91-107 | Flat layout: the five required entries are copied verbatim, and `gencost` is copied exactly when the file has it. The gencost note is raised exactly when it is absent. |
| Payload.Extract | pandapower/converter/matpower/from_mpc.py:77-110 | Precedence: a value under the case name selects the named layout, even when flat keys exist. The flat layout is used iff the case name is absent and all five keys are present. All required keys are written on success, and gencost exactly when the chosen source has it. The structure is reported invalid iff neither layout matches, and then nothing is written. |
| Tables.OffsetColumnCells | pandapower/converter/matpower/from_mpc.py:71-74 | Shifting a column keeps the shape. Exactly the cells of column `c` gain `delta`; every other cell is unchanged. |
| Tables.OffsetColumnTwice | pandapower/converter/matpower/from_mpc.py:71-74 | Shifting a column by `a` and then by `b` is shifting it by `a + b`. |
| Tables.DecrementNotIdempotent | pandapower/converter/matpower/from_mpc.py:71-74 | The index shift is not idempotent. Applied twice to a table having the column, it lowers the column by 2, which differs from a single shift. |
| Tables.OffsetColumnInPlace | pandapower/converter/matpower/from_mpc.py:71 | The in-place column decrement leaves the array holding exactly the shifted grid of its old contents. |
| Tables.RepairTapsCells | pandapower/converter/matpower/from_mpc.py:115 | Tap repair keeps the shape. A 0 tap in column `c` becomes 1 and every other cell is unchanged, so no row keeps a 0 tap. |
| Tables.RepairTapsIdempotent | pandapower/converter/matpower/from_mpc.py:115 | Repairing the taps twice is repairing them once. |
| Tables.RepairCommutesWithOffset | pandapower/converter/matpower/from_mpc.py:63-64 | Repairing the taps commutes with shifting any other column. |
| Tables.RepairTapsInPlace | pandapower/converter/matpower/from_mpc.py:115 | The in-place tap repair leaves the array holding exactly the repaired grid of its old contents. |
| FromMpc.ColumnError | pandapower/converter/matpower/from_mpc.py:71-74 | A column update raises no error iff the entry is a table having that column. Otherwise it reports the missing entry, or the entry that is not such a table. |
| FromMpc.AdjustError | pandapower/converter/matpower/from_mpc.py:69-74 | The index shift raises no error iff bus, branch and gen are tables with the edited columns. Otherwise the error is that of the first of the four column updates, in the order bus, branch "from", branch "to", gen, that cannot run. It names bus, branch or gen, and it names a later table only when the updates of the earlier ones could run. |
| FromMpc.Ppc.constructor | pandapower/converter/matpower/from_mpc.py:60 | A new `ppc` is empty. |
| FromMpc.Ppc.CopyNamedStruct | pandapower/converter/matpower/from_mpc.py:78-89 | Writes into the dictionary exactly the entries `CopyNamed` specifies, one attribute at a time, and returns its report. |
| FromMpc.Ppc.CopyFlatEntries | pandapower/converter/matpower/from_mpc.py:91-107 | Writes into the dictionary exactly the entries `CopyFlat` specifies and returns its report. |
| FromMpc.Ppc.CopyDataFromMpc | pandapower/converter/matpower/from_mpc.py:77-110 | Writes exactly the entries `Extract` specifies into the dictionary, on top of what it held, and returns `Extract`'s report. |
| FromMpc.Ppc.AdjustIndices | pandapower/converter/matpower/from_mpc.py:69-74 | Fails with `AdjustError` when a column update cannot run, and then modifies nothing. Otherwise bus column 0, branch columns 0 and 1, and gen column 0 are lowered by one, in place, and nothing else changes. |
| FromMpc.Ppc.ChangeTapValue | pandapower/converter/matpower/from_mpc.py:113-115 | Fails when there is no branch table with a tap column, and then modifies nothing. Otherwise every 0 tap of the branch table becomes 1, in place. |
| FromMpc.Ppc.Normalize | pandapower/converter/matpower/from_mpc.py:63-64 | Index shift, then tap repair; the first error stops. An index-shift error leaves every table unchanged. Once the shift can run, bus and gen end shifted. If the tap repair then fails, branch stays shifted but unrepaired; on success it holds its normalised form. |
| FromMpc.NormalizedBranchCells | pandapower/converter/matpower/from_mpc.py:72-73 | Cell by cell, a normalised branch table is the raw one with both bus ends lowered by one and 0 taps set to 1. Nothing else changes. |
| FromMpc.NormalizationOrderIrrelevant | pandapower/converter/matpower/from_mpc.py:63-64 | Repairing the taps before or after the index shift gives the same branch table. |
| FromMpc.NormalizedBranchRepaired | pandapower/converter/matpower/from_mpc.py:115 | A normalised branch table has no tap left to repair. |
| FromMpc.BusReferencesPreserved | pandapower/converter/matpower/from_mpc.py:71-74 | After the shift, a branch end or a generator refers to a bus number exactly when it did before. |
| FromMpc.ThreeBusExample | pandapower/converter/matpower/from_mpc.py:69-74 | On a three-bus case: buses 1, 2, 3 become 0, 1, 2. Branch 1-2 with tap 0 becomes 0-1 with tap 1, and branch 2-3 with tap 0.98 becomes 1-2, keeping 0.98. The generator at bus 1 moves to bus 0. |
| FromMpc.ConversionError | pandapower/converter/matpower/from_mpc.py:55-66 | The conversion fails iff the copy stops on a missing attribute, or the copied entries are not tables with the edited columns. A missing attribute is reported as such, and an invalid structure as the missing `bus` entry. For a completed copy, the error is the index shift's error when the shift cannot run, and otherwise the tap repair's error. |
| FromMpc.Mpc2Ppc | pandapower/converter/matpower/from_mpc.py:55-66 | Fails exactly with `ConversionError`. On success it returns a fresh `ppc` holding exactly the extracted entries. Its bus, branch and gen tables then hold the normalised forms of their original contents. |

## Left out

- Reading the file (`scipy.io.loadmat`) is not modelled. `Mpc2Ppc` takes the decoded mapping as a parameter.
- Array squeezing on load is not modelled: every table is a 2-D array. A one-row table that would load as a 1-D array, and then fail on `[:, 0]`, is not modelled.
- `from_mpc` and the later network building (`from_ppc`, the frequency and the transformer-detection setting) are not part of this model.
- Logging is not modelled as output. The "gencost is not in mpc" note and the invalid-structure error are kept as report values.
- Table cells are reals rather than IEEE doubles. Subtracting 1 and comparing with 0 are exact in the model.
- FromMpc.Ppc.AdjustIndices: all four column updates are checked before any of them runs. The code may shift the bus column, or a branch column, and only then raise on a later table; the model changes nothing when it raises.
- FromMpc.Ppc.AdjustIndices: the bus, branch and gen tables are required to be three different arrays, as they are in a decoded file. The code's behaviour when one array is shared between entries is not modelled.
- FromMpc.Mpc2Ppc: on failure, its contract does not state the contents of the tables. `FromMpc.Ppc.Normalize` states them for each failure path: unchanged after an index-shift error, shifted but not repaired after a tap-repair error.
- The Python-level exception types are collapsed into three error values: `MissingAttribute`, `MissingKey` and `NotATable`.
