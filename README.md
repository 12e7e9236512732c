# Calibration entries, modelled in Dafny

A calibration entry holds the pulse-level definition of one gate
calibration and hands out a schedule on request, with parameters bound
from the caller's arguments. This project models the three kinds of entry
in `qiskit/pulse/calibration_entries.py`:

- `ScheduleDef` holds a schedule in memory. It checks the argument names the
  user gives. It derives an ordered signature from the schedule's parameter
  names. It tags the schedule with the `QISKIT` publisher unless a publisher
  is already recorded. It binds arguments partially and assigns them into a
  copy of the schedule.
- `CallableDef` holds a callback. It binds every argument, filling defaults,
  calls the callback once per request and tags the result.
- `PulseQobjDef` holds Qobj instructions. It converts them to a schedule the
  first time a signature or a schedule is needed, or when it is compared with
  a schedule entry. From then on it keeps that schedule and behaves as a
  `ScheduleDef`.

Files and modules:

- `common.dfy` (`Common`): `Option`, `Result`, `Outcome`, and the `Error`
  causes an entry raises.
- `names.dfy` (`Names`): Python's ordering of `str`, `sorted(set(...))` as
  `SortedDistinct`, the identifier rule of `inspect.Parameter`, and
  `", ".join` with its inverse.
- `binding.dfy` (`Binding`): `inspect.Signature.bind_partial`, `bind` and
  `apply_defaults` over positional-or-keyword parameters.
- `schedules.dfy` (`Schedules`): the schedule an entry holds, reduced to what
  the entries use. It has a name, a metadata map changed in place, and timed
  instructions whose operands are values or named parameters. It supports
  in-place insertion and assignment into a copy. `CalibrationPublisher` is
  the `Publisher` datatype.
- `signatures.dfy` (`Signatures`): the logic shared by `ScheduleDef` and
  `PulseQobjDef`. This is argument checking, signature derivation, the value
  dictionary of `get_schedule` and the display text.
- `entries.dfy` (`CalibrationEntries`): the entry classes and the callback
  class.

The abstract `CalibrationEntry` base becomes the `Entry` union, used where
`__eq__` receives any entry. `PulseQobjDef` inherits from `ScheduleDef` in
Python. Here it is a separate class with the same fields. The two classes
share the functions of `Signatures` and the module-level `Instantiate`
method. A ghost counter `builds` records the unbuilt-to-built transition of
a Qobj entry. A ghost counter `calls` records how often a callback runs.

## Model

| member | source | states |
|---|---|---|
| `Names.LessIrreflexive` | qiskit/pulse/calibration_entries.py:108 | No name sorts before itself under Python's string order. |
| `Names.LessAsymmetric` | qiskit/pulse/calibration_entries.py:108 | Two names are never each below the other. |
| `Names.LessTransitive` | qiskit/pulse/calibration_entries.py:108 | The string order is transitive. |
| `Names.LessTotal` | qiskit/pulse/calibration_entries.py:108 | Of two different names, one sorts first. |
| `Names.InsertSorted` | qiskit/pulse/calibration_entries.py:108 | Inserting into an ascending duplicate-free list keeps it ascending and adds exactly the new name. |
| `Names.SortedDistinct` | qiskit/pulse/calibration_entries.py:98-108 | `sorted(set(names))` is strictly ascending and holds exactly the names given. |
| `Names.SortedUnique` | qiskit/pulse/calibration_entries.py:108 | Two strictly ascending lists with the same names are the same list. |
| `Names.ValidNameHasNoComma` | qiskit/pulse/calibration_entries.py:112-116 | A name `inspect.Parameter` accepts is non-empty and has no comma. |
| `Names.SplitJoin` | qiskit/pulse/calibration_entries.py:155 | The `", "`-joined list of non-empty comma-free names splits back into the same names. |
| `Binding.BindKeywordsSpec` | qiskit/pulse/calibration_entries.py:137 | Keyword binding succeeds iff every keyword names a remaining parameter and, for a full bind, every remaining required parameter gets one; it then adds the keywords as given. |
| `Binding.BindPositionalSpec` | qiskit/pulse/calibration_entries.py:137 | Binding succeeds iff there are no more positionals than parameters, none is repeated by keyword, and the keywords bind; it then adds positionals and keywords. |
| `Binding.PositionalSpec` | qiskit/pulse/calibration_entries.py:137 | The i-th positional argument binds the i-th parameter's name, and only those names are bound. |
| `Binding.ApplyDefaultsSpec` | qiskit/pulse/calibration_entries.py:186 | `apply_defaults` keeps every bound argument, adds the default of every unbound parameter that has one, and adds nothing else. |
| `Binding.BindPartialSpec` | qiskit/pulse/calibration_entries.py:136-139 | `bind_partial` succeeds iff no extra positional, no unknown keyword and no name given twice; the bound names are the first positional names plus the keywords, each with its argument. |
| `Binding.BindFullValues` | qiskit/pulse/calibration_entries.py:185-186 | After a full bind with defaults, each parameter holds its positional argument, else its keyword argument, else its default. |
| `Binding.BindFullKeys` | qiskit/pulse/calibration_entries.py:185-186 | After a full bind with defaults, only declared parameters are bound. |
| `Binding.BindFullSpec` | qiskit/pulse/calibration_entries.py:183-188 | `bind` plus `apply_defaults` succeeds iff in addition every parameter without a default gets an argument; then exactly the declared parameters are bound, by position, by keyword or by default; failures are `BindFailure`. |
| `Schedules.TagIfAbsent` | qiskit/pulse/calibration_entries.py:126-127 | Adds the publisher key only when absent; an existing publisher and all other metadata are kept. |
| `Schedules.Tag` | qiskit/pulse/calibration_entries.py:240 | Sets the publisher unconditionally and keeps every other metadata entry. |
| `Schedules.AssignedOperandParameters` | qiskit/pulse/calibration_entries.py:142-147 | After assignment, the operand parameters left are exactly those without a value. |
| `Schedules.AssignedParameters` | qiskit/pulse/calibration_entries.py:142-147 | After assignment, the schedule's parameters left are exactly those without a value. |
| `Schedules.AssignTwice` | qiskit/pulse/calibration_entries.py:142-147 | A partially assigned schedule assigned again equals one assignment of both value sets, the earlier values winning. |
| `Schedules.Schedule.constructor` | qiskit/pulse/calibration_entries.py:236 | A new schedule holds the given name, metadata and instructions. |
| `Schedules.Schedule.Insert` | qiskit/pulse/calibration_entries.py:239 | In-place insertion appends the instruction at `t0` and changes nothing else. |
| `Schedules.Schedule.AssignParameters` | qiskit/pulse/calibration_entries.py:147 | Assignment with `inplace=False` returns a new schedule with the values substituted; the original is unchanged. |
| `Signatures.CheckArguments` | qiskit/pulse/calibration_entries.py:85-89 | Raises `InvalidArguments` iff some argument is not a string; `None` and `[]` both give no names; otherwise the names are kept in order. |
| `Signatures.SignatureOf` | qiskit/pulse/calibration_entries.py:110-120 | Building the signature succeeds iff every name is an identifier that is not a keyword and none repeats; a bad name is reported before a duplicate. |
| `Signatures.DeriveSignature` | qiskit/pulse/calibration_entries.py:98-121 | On success the signature is well formed and has exactly the schedule's parameter names: sorted and duplicate-free without user names, the user's order with them; `ArgumentMismatch` iff user names are given and their set differs; success iff the names are valid and the user's names, if any, do not repeat. |
| `Signatures.SortedSignatureIsCanonical` | qiskit/pulse/calibration_entries.py:98-108 | Without user names the signature depends only on which parameter names occur, not on their order or repeats. |
| `Signatures.ValueDict` | qiskit/pulse/calibration_entries.py:140-146 | The value dictionary holds exactly the definition's parameters whose name was bound, each with the bound value of its name. |
| `Signatures.PartialAssignment` | qiskit/pulse/calibration_entries.py:140-147 | Each operand naming a bound parameter takes the value bound to that name, so parameters sharing a name get the same value; other operands and all times and opcodes stay; the parameters left are exactly the unbound ones. |
| `Signatures.ScheduleTextSpec` | qiskit/pulse/calibration_entries.py:153-158 | The text starts `Schedule <name>` and is exactly that when the signature is empty; otherwise it is followed by the parenthesised signature, which splits back into the signature in order. |
| `Signatures.CallableTextSpec` | qiskit/pulse/calibration_entries.py:201-203 | The text starts `Callable <name>` followed by the parenthesised parameter list, which splits back into the parameters in order. |
| `CalibrationEntries.Instantiate` | qiskit/pulse/calibration_entries.py:133-147 | Without arguments, returns the stored definition itself. With arguments: `Undefined` without a signature; `BindFailure` when the partial bind fails; otherwise a fresh copy with the value dictionary assigned. The definition is not changed. |
| `CalibrationEntries.PartialBindLeavesUnbound` | qiskit/pulse/calibration_entries.py:136-147 | After a successful partial bind and assignment, the parameters left are exactly those named neither by a positional argument nor by a keyword. |
| `CalibrationEntries.ScheduleDefText` | qiskit/pulse/calibration_entries.py:153-158 | The text exists iff there is a definition and a signature; it is then the schedule text of the definition's name and the signature. |
| `CalibrationEntries.ScheduleDef.constructor` | qiskit/pulse/calibration_entries.py:89-92 | A new entry keeps the user's names and has no definition and no signature. |
| `CalibrationEntries.ScheduleDef.Create` | qiskit/pulse/calibration_entries.py:76-92 | Construction raises `InvalidArguments` exactly when the argument check fails; otherwise a fresh undefined entry holds the checked names. |
| `CalibrationEntries.ScheduleDef.ParseArgument` | qiskit/pulse/calibration_entries.py:94-121 | The signature becomes the derived one; when derivation raises, the previous signature stays and the error is reported. |
| `CalibrationEntries.ScheduleDef.Define` | qiskit/pulse/calibration_entries.py:123-128 | The schedule becomes the definition, its metadata gains the `QISKIT` publisher only when none is recorded, and the signature is derived from it; on failure the definition stays set and the old signature stays. |
| `CalibrationEntries.ScheduleDef.GetSignature` | qiskit/pulse/calibration_entries.py:130-131 | Returns the stored signature. |
| `CalibrationEntries.ScheduleDef.GetSchedule` | qiskit/pulse/calibration_entries.py:133-147 | As `Instantiate` on the entry's definition and signature; the entry is not changed. |
| `CalibrationEntries.ScheduleDef.Equals` | qiskit/pulse/calibration_entries.py:149-151 | Equal iff the definitions are equal: both missing, or two schedules with the same instructions. |
| `CalibrationEntries.ScheduleDef.ToString` | qiskit/pulse/calibration_entries.py:153-158 | `Undefined` without a definition or signature, otherwise the schedule text of the definition's name and signature. |
| `CalibrationEntries.Callback.constructor` | qiskit/pulse/calibration_entries.py:175-177 | A callback has a name, distinct identifier parameters with optional defaults, and has not been called. |
| `CalibrationEntries.Callback.Invoke` | qiskit/pulse/calibration_entries.py:190 | Each call returns a new schedule computed from the arguments and counts one call. |
| `CalibrationEntries.CallableDef.constructor` | qiskit/pulse/calibration_entries.py:170-173 | A new entry has no callback and no signature. |
| `CalibrationEntries.CallableDef.Define` | qiskit/pulse/calibration_entries.py:175-177 | The callback becomes the definition and its parameters the signature. |
| `CalibrationEntries.CallableDef.GetSignature` | qiskit/pulse/calibration_entries.py:179-180 | Returns the stored signature. |
| `CalibrationEntries.CallableDef.GetSchedule` | qiskit/pulse/calibration_entries.py:182-194 | `Undefined` without a callback. `BindFailure`, with no call made, when the full bind fails. Otherwise exactly one call, on the bound arguments with defaults; the result is tagged `QISKIT` only if it names no publisher. |
| `CalibrationEntries.CallableDef.Equals` | qiskit/pulse/calibration_entries.py:196-199 | Equal iff both entries hold the very same callback object, or neither holds anything. |
| `CalibrationEntries.CallableDef.ToString` | qiskit/pulse/calibration_entries.py:201-203 | `Undefined` without a callback, otherwise the callable text of its name and parameter names. |
| `CalibrationEntries.Place` | qiskit/pulse/calibration_entries.py:238-239 | Every converted instruction is placed at the start time of its Qobj instruction, in the converter's order. |
| `CalibrationEntries.ExpandConcat` | qiskit/pulse/calibration_entries.py:237-239 | Converting a concatenated source gives the conversions of the parts, in order. |
| `CalibrationEntries.ExpandMembers` | qiskit/pulse/calibration_entries.py:237-239 | The built schedule holds exactly the converted instructions, each at the start time of the Qobj instruction it came from. |
| `CalibrationEntries.PulseQobjDef.constructor` | qiskit/pulse/calibration_entries.py:228-232 | A new entry keeps the names, converter and name, and has no source, no definition and no build. |
| `CalibrationEntries.PulseQobjDef.Create` | qiskit/pulse/calibration_entries.py:215-232 | Construction applies the same argument check as `ScheduleDef`. |
| `CalibrationEntries.PulseQobjDef.ParseArgument` | qiskit/pulse/calibration_entries.py:243 | As `ScheduleDef.ParseArgument`: derived signature, or the old one and the error. |
| `CalibrationEntries.PulseQobjDef.BuildSchedule` | qiskit/pulse/calibration_entries.py:234-243 | Without a source, `NoSource` and nothing changes. Otherwise a fresh schedule holds every converted instruction in source order at its start time, is tagged `BACKEND_PROVIDER` unconditionally, and becomes the definition; the build counter goes from zero to one, and the signature is derived as in `ScheduleDef`. |
| `CalibrationEntries.PulseQobjDef.Define` | qiskit/pulse/calibration_entries.py:245-247 | Stores the source only; no build, no signature, and an earlier build stays. |
| `CalibrationEntries.PulseQobjDef.GetSignature` | qiskit/pulse/calibration_entries.py:249-252 | Builds first only if nothing was built; a built entry is left unchanged; returns the signature or the build's error. |
| `CalibrationEntries.PulseQobjDef.GetSchedule` | qiskit/pulse/calibration_entries.py:254-257 | Builds first only if nothing was built, then behaves as `ScheduleDef.GetSchedule`; a build error is returned instead. |
| `CalibrationEntries.PulseQobjDef.Equals` | qiskit/pulse/calibration_entries.py:259-266 | Against a Qobj entry, compares sources and changes nothing. Against a schedule entry while unbuilt, builds first and then compares definitions. Otherwise compares definitions without building. |
| `CalibrationEntries.PulseQobjDef.ToString` | qiskit/pulse/calibration_entries.py:268-272 | `"PulseQobj"` while unbuilt, otherwise the schedule entry text; as a function it cannot build. |

## Left out

- Unicode identifier classes: every character from U+0080 on counts as a letter in `Names.ValidName`, so a few names Python refuses are accepted.
- `inspect.signature` on an arbitrary Python callable: a callback is given directly by its parameter list, each positional-or-keyword with an optional default. `*args`, `**kwargs` and keyword-only parameters are not modelled.
- `CalibrationEntries.Callback.Invoke`: a callback is assumed to return a new schedule and never to raise; one that returns a shared schedule object, or raises, is not modelled.
- `Schedules.Schedule.Insert`: time ordering and the overlap check of `Schedule.insert` are not modelled; insertion appends.
- Schedule equality: two schedules are taken as equal when their instruction lists are equal. Other rules of `Schedule.__eq__` and `ScheduleBlock` are not modelled.
- Auto-generated schedule names: a Qobj entry is always given a name.
- The `QobjToInstructionConverter` and the Qobj wire format: the converter is an opaque function from a Qobj instruction to instructions. The default converter is not modelled.
- Python's reflected `==` dispatch: each class's `Equals` models its own `__eq__` with any entry as the other operand. Comparison with objects that are not entries is not modelled.
- Exception chaining, `return_annotation`, and the numeric values of `CalibrationPublisher`.
- Any registry that maps instructions or qubits to entries; it is not part of this model.
