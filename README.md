# Amplitude estimation benchmark (Braket) and the pyTKET result adapter, in Dafny

This project models the core of the QED-C application-oriented benchmark for
quantum amplitude estimation on Amazon Braket, together with the result adapter
of the pyTKET executor.

- **Circuit construction.** Circuits are gate sequences (`seq<Gate>`), and each
  builder is a method that appends to one. The builders are:
  - the multi-controlled X (`add_mcx`): a breadth-first work list of
    `[j, i, theta]` units, each emitting an optional CNOT between two controls
    and one controlled phase on the target, either native or through the
    five-gate CPHASESHIFT shim;
  - the amplitude generator A (`A_gen`);
  - the Grover-like operator Q (`Q_Unitary`), in gate order;
  - the phase-estimation schedule of `AmplitudeEstimation`.

  A sub-circuit placed as one gate is a `Block` that carries the gates it is
  made from: A at the head of the phase-estimation circuit and A and its
  adjoint inside Q carry the gates of `A_gen`, and each controlled Q carries the
  gates of `Q_Unitary`. The adjoint and the controlled version come from
  `adjoint` and `controlled_unitary` in the repository's `ae_utils` module, and
  the unitary from the Braket SDK's `calculate_unitary`; none of them is
  modelled. The inverse QFT, from `inv_qft_gate` in the repository's QFT
  benchmark (`qft_benchmark`), is a block with no gates. Angles are symbolic: `Pi(neg, k)` stands for ±π/2^k, and
  the RY angle of A stands for `2·arcsin(√a)`.
- **Post-processing.** Raw counts are folded onto the counting qubits. Each key
  becomes the reverse of its first `m` characters, and the counts of colliding
  keys are added. The counts are then re-keyed by estimated amplitude
  (`bitstring_to_a`), with the floating-point estimate kept as an
  uninterpreted function. Python dictionaries are association lists in
  insertion order.
- **The benchmark loop `run`.** It clamps and validates its parameters and, for
  each width, plans the number of counting qubits, the number of circuits, the
  secrets and the circuits themselves.
- **`PytketResult`.** It counts register sizes from the reversed bit-name list.
  It then rewrites every readout key: one digit group per register, the groups
  separated by spaces, and the whole string reversed.

Errors the Python code raises are modelled as `Result` values:
- the `IndexError` of `add_mcx` with no controls (`controls[-1]` on an empty list);
- the `IndexError` of a `psi` string shorter than the number of state qubits;
- the `ValueError` of `int(key, 2)` on a non-binary key;
- the `ValueError` of a bit name that does not unpack into exactly two parts;
- the `ValueError` numpy raises for a negative number of secrets.

A malformed bit name makes the code raise ValueError from the tuple unpacking,
and the model returns that error.

## Model

| member | source | states |
|---|---|---|
| `Gates.Magnitude` | amplitude-estimation/braket/ae_benchmark.py:197-198 | `abs(theta)` keeps the power of two and drops the sign |
| `Mcx.ShimCounts` | amplitude-estimation/braket/ae_benchmark.py:166-171 | the CPHASESHIFT shim is exactly two CNOTs and three RZs and contains no native phase gate |
| `Mcx.AddCxUnit` | amplitude-estimation/braket/ae_benchmark.py:176-205 | appends the unit's optional CNOT and its phase gate(s), and returns the two child units (none once `i` reaches 0) with the decremented `i`, the updated `j` and the angles `-abs(theta)` and `abs(theta)` |
| `Mcx.UnitGatesCount` | amplitude-estimation/braket/ae_benchmark.py:182-189 | a unit emits a CNOT between controls iff `j` is set, then exactly one native phase gate, or with the shim three RZs and two more CNOTs |
| `Mcx.AddCxcu1Units` | amplitude-estimation/braket/ae_benchmark.py:208-213 | one pass appends the gates of every unit in list order and returns the concatenated children |
| `Mcx.NextUnitsShape` | amplitude-estimation/braket/ae_benchmark.py:191-205 | a pass of `p`-th-level units yields twice as many units of level `p+1`, or none after the last level |
| `Mcx.WorkListShape` | amplitude-estimation/braket/ae_benchmark.py:222-224 | pass `p < n` holds `2^p` units, all sharing `i = n-1-p`; each set `j` satisfies `i < j <= n-1` and each angle has magnitude π/2^n; after `n` passes the list is empty, so the loop ends |
| `Mcx.AddMcx` | amplitude-estimation/braket/ae_benchmark.py:218-225 | IndexError with no controls; otherwise appends H(target), the gates of all passes, and H(target) |
| `Mcx.McxCounts` | amplitude-estimation/braket/ae_benchmark.py:218-225 | the mcx starts and ends with H(target) and holds 2^n-1 phase units and 2^n-2 control-to-control CNOTs (with the shim, 3(2^n-1) RZs and 2(2^n-1) more CNOTs instead of native phases) |
| `Mcx.McxShape` | amplitude-estimation/braket/ae_benchmark.py:176-205 | every gate between the two H gates is one of: a CNOT from a higher-indexed control to a lower-indexed one; a native phase from a control to the target with magnitude π/2^n; or, with the shim only, a CNOT from a control to the target or an RZ of magnitude π/2^(n+1) on a control or the target |
| `StatePrep.AGen` | amplitude-estimation/braket/ae_benchmark.py:94-121 | IndexError when a `psi` string is shorter than `n`; otherwise RY(n), X(n), the CNOTs for the 1s of `psi_zero`, X(n), the CNOTs for the 1s of `psi_one` |
| `StatePrep.OnesCnotsTargets` | amplitude-estimation/braket/ae_benchmark.py:111-119 | state qubit `i` is the target of a CNOT iff `psi[i] == '1'`, and then exactly once |
| `StatePrep.AGatesShape` | amplitude-estimation/braket/ae_benchmark.py:104-121 | A has `3 + ones(psi_zero) + ones(psi_one)` gates, starts with the RY, has two X gates, and every CNOT has control `n` and a target below `n` |
| `StatePrep.AGatesDefault` | amplitude-estimation/braket/ae_benchmark.py:96-99 | with the default `psi` strings A has `3 + n` gates and flips each state qubit exactly once |
| `StatePrep.AddXLayer` | amplitude-estimation/braket/ae_benchmark.py:142-143 | appends X on qubits `0 .. count-1` in order |
| `StatePrep.QUnitary` | amplitude-estimation/braket/ae_benchmark.py:124-161 | IndexError with no state qubits; otherwise X Z X on the objective, A inverse, the X layer and H, the mcx on controls `0..n-1` and target `n`, H and the X layer, then A, both blocks carrying the gates of the given A |
| `StatePrep.S0Mirror` | amplitude-estimation/braket/ae_benchmark.py:141-151 | the layers around the mcx mirror each other: H next to the mcx on both sides, the same gates, and each X(i) once on each side |
| `StatePrep.QShape` | amplitude-estimation/braket/ae_benchmark.py:132-154 | Q opens with X Z X, then A inverse, and ends with A, both on qubits `0..n` and carrying the given A; each of the two blocks occurs once, and all native phase gates come from the mcx |
| `PhaseEstimation.AmplitudeEstimation` | amplitude-estimation/braket/ae_benchmark.py:33-91 | passes on the IndexError of A or Q; otherwise A on qubits `m..width-1`, H on each counting qubit, the controlled-Q schedule and the inverse QFT, where A carries the gates `A_gen` built and each controlled Q the gates `Q_Unitary` built around that A |
| `PhaseEstimation.HLayerOccurrences` | amplitude-estimation/braket/ae_benchmark.py:67-68 | the H layer holds `m` gates, with H(j) once for every counting qubit `j` |
| `PhaseEstimation.ScheduleCounts` | amplitude-estimation/braket/ae_benchmark.py:70-81 | counting qubit `j` controls exactly `2^(m-1-j)` applications of Q; there are `2^m - 1` in all |
| `PhaseEstimation.ScheduleOrder` | amplitude-estimation/braket/ae_benchmark.py:71-80 | the controls never increase along the schedule (from `m-1` down to 0), and every application acts on qubits `m..width-1` |
| `PhaseEstimation.AECircuitShape` | amplitude-estimation/braket/ae_benchmark.py:36-84 | A, carrying the A circuit, first on qubits `m..nsq+m` and the inverse QFT last; one H per counting qubit; `2^(m-1-j)` controlled Q on qubit `j`, each carrying the Q circuit and acting on qubits `m..nsq+m`; `2^m + 1` blocks in all |
| `PhaseEstimation.AddSchedule` | amplitude-estimation/braket/ae_benchmark.py:70-81 | the two nested loops append exactly the reference schedule: counting qubits `m-1` down to 0, with `2^(m-1-j)` controlled Q on qubit `j` |
| `Analysis.FoldCounts` | amplitude-estimation/braket/ae_benchmark.py:234-241 | the loop that builds `counts_str` produces the folded counts |
| `Analysis.FoldKeyShape` | amplitude-estimation/braket/ae_benchmark.py:237 | a folded key is the first `m` characters of the raw key in reverse order |
| `Analysis.FoldTotal` | amplitude-estimation/braket/ae_benchmark.py:236-241 | folding keeps every shot: the totals are equal |
| `Analysis.FoldContents` | amplitude-estimation/braket/ae_benchmark.py:236-241 | folded keys are distinct and are exactly the folded raw keys, and each holds the sum of the counts of the raw keys that fold onto it |
| `Analysis.ParseBinary` | amplitude-estimation/braket/ae_benchmark.py:267 | `int(key, 2)` of a key of `L` binary digits is below 2^L |
| `Analysis.ParseBinarySpec` | amplitude-estimation/braket/ae_benchmark.py:267 | `int(key, 2)` has a value iff the key is non-empty and every character is `0` or `1`; the value is then the sum of `2^(L-1-i)` over the positions `i` holding `1` |
| `Analysis.BitstringToA` | amplitude-estimation/braket/ae_benchmark.py:261-272 | ValueError iff some key is not binary; otherwise the counts re-keyed by the estimated amplitude |
| `Analysis.ReKeyTotal` | amplitude-estimation/braket/ae_benchmark.py:265-271 | re-keying keeps every shot, whatever the amplitude function |
| `Analysis.ReKeyContents` | amplitude-estimation/braket/ae_benchmark.py:269-271 | the amplitude keys are distinct and are exactly the amplitudes estimated by some bitstring, and each holds the total count of the bitstrings that estimate it |
| `Analysis.AnalyzeCounts` | amplitude-estimation/braket/ae_benchmark.py:234-243 | folding then re-keying succeeds iff every folded key is binary, and then preserves the total |
| `BenchmarkRun.ValidateSpec` | amplitude-estimation/braket/ae_benchmark.py:295-309 | `max_qubits` is clamped to 8 and `num_state_qubits` raised to 1. `run` returns early iff `max_qubits < nsq + 2`. The effective minimum is `max(3, min_qubits, nsq + 2)`. The shim is on iff requested or the backend id contains `ionq/` |
| `BenchmarkRun.DefaultRun` | amplitude-estimation/braket/ae_benchmark.py:288-290 | `run()` with its defaults (`min_qubits=3`, `max_qubits=8`, `max_circuits=3`, one state qubit, the `simulator` backend, no shim) builds widths 3 to 8 with one state qubit and no shim |
| `BenchmarkRun.DefaultMinimum` | amplitude-estimation/braket/ae_benchmark.py:300-303 | with one state qubit and `min_qubits = 1` the smallest circuit has 3 qubits |
| `BenchmarkRun.Run` | amplitude-estimation/braket/ae_benchmark.py:287-357 | returns early when validation fails; otherwise does what `Planned` says for the validated parameters, each circuit being the one `AmplitudeEstimation` returns with the default `psi` strings |
| `BenchmarkRun.PlannedSpec` | amplitude-estimation/braket/ae_benchmark.py:330-354 | after validation `run` raises ValueError, with no group done, iff there is a width and `max_circuits` is negative; otherwise it yields one group per width `min_qubits .. max_qubits`, and group `k` is the plan of width `min_qubits + k` |
| `BenchmarkRun.PlanWidths` | amplitude-estimation/braket/ae_benchmark.py:330-357 | the loop over `min_qubits .. max_qubits` yields the groups `Planned` describes |
| `BenchmarkRun.PlanWidth` | amplitude-estimation/braket/ae_benchmark.py:333-354 | one width raises ValueError for a negative `max_circuits`; otherwise it is the plan of that width, with one `AmplitudeEstimation` circuit per secret |
| `BenchmarkRun.PlanForSpec` | amplitude-estimation/braket/ae_benchmark.py:330-354 | each width's plan records that width, has `m >= 1` counting qubits, and the width is `nsq + 1 + m`. It gets `min(2^m, max_circuits)` circuits, all equal to the width's circuit. Its secrets are exactly `0 .. 2^m-1` when `2^m <= max_circuits`, and a random draw of `max_circuits` values exactly when `2^m > max_circuits` |
| `PytketExecutor.RegisterNameSpec` | _common/executors/pytket_executor.py:31 | a bit name parses iff its text minus the last character holds exactly one `[`; the register name is the text before it |
| `PytketExecutor.CountRegisters` | _common/executors/pytket_executor.py:29-35 | ValueError, with no partial result, iff some bit name does not parse; otherwise the register map built over the reversed bit list |
| `PytketExecutor.RegisterSizesSpec` | _common/executors/pytket_executor.py:29-35 | each register name is listed once, in order of first appearance; each size is the number of bits of that register, at least 1; the sizes sum to the number of bits |
| `PytketExecutor.ReformatKey` | _common/executors/pytket_executor.py:39-46 | the `bit`-offset loop produces the reformatted key |
| `PytketExecutor.FormattedKeyFields` | _common/executors/pytket_executor.py:40-46 | the output's space-separated fields are the register groups from last to first, each reversed |
| `PytketExecutor.FullKeyShape` | _common/executors/pytket_executor.py:38-46 | for a full-length key: the i-th field from the left has the size of the i-th register from the end; there are `#registers - 1` spaces and `bits + #registers - 1` characters |
| `PytketExecutor.RoundTrip` | _common/executors/pytket_executor.py:40-46 | reversing an output key and deleting its spaces gives the readout's digits in their original order |
| `PytketExecutor.FormattedKeyInjective` | _common/executors/pytket_executor.py:37-46 | two full-length keys with the same output key are equal |
| `PytketExecutor.OverwriteDistinct` | _common/executors/pytket_executor.py:46 | storing entries under new keys that never collide overwrites nothing: every entry appears once, in order, and the total is unchanged |
| `PytketExecutor.ReformatCounts` | _common/executors/pytket_executor.py:37-46 | the loop over the counts stores each value under its reformatted key, and a later entry overwrites an earlier one |
| `PytketExecutor.ReformattedEntries` | _common/executors/pytket_executor.py:37-46 | on distinct full-length keys every entry appears exactly once, in order, under its reformatted key; the keys stay distinct and the total is preserved |
| `PytketExecutor.RegisterSizeListSum` | _common/executors/pytket_executor.py:29-35 | the register sizes sum to the number of classical bits, so a full-length readout key has one digit per bit of the bit list |
| `PytketExecutor.ResultEntries` | _common/executors/pytket_executor.py:24-46 | for a backend result whose readout keys are distinct and as long as the bit list, the stored counts hold every entry once, in order, under its reformatted key; the keys stay distinct and the total is unchanged |
| `PytketExecutor.PytketResult.constructor` | _common/executors/pytket_executor.py:24-46 | stores the backend result and the reformatted counts for the register sizes of its bit list |
| `PytketExecutor.NewPytketResult` | _common/executors/pytket_executor.py:24-46 | construction raises ValueError iff some bit name does not parse, and otherwise yields a new result object holding the backend result and its counts reformatted for the register sizes of its bit list; for distinct keys as long as the bit list those counts have as many entries, distinct keys and the same total |
| `PytketExecutor.PytketResult.GetCounts` | _common/executors/pytket_executor.py:48-50 | returns the stored counts unchanged, whatever circuit is passed |

## Left out

- Floating point is not modelled: `arcsin`/`sqrt` for the RY angle, the numeric value of π/2^n, `sin²` with `round(..., precision)`, and `a_from_s_int`. Angles are symbolic and the amplitude estimate is an uninterpreted function.
- Calls into the Braket SDK (`calculate_unitary`, `Circuit.add_circuit`) and into the repository modules `ae_utils` (`adjoint`, `controlled_unitary`) and `qft_benchmark` (`inv_qft_gate`) become blocks; those modules are not part of this model. A block records the qubits it acts on and the gates it is made from, but not the adjoint, unitary or controlled operation computed from them, and `add_circuit`'s placement of A is kept as one block rather than its gates remapped onto qubits `m..nsq+m`. The gates of the inverse QFT are not built.
- Analysis.ParseBinary: models `int(key, 2)` only on plain digit strings; Python also accepts surrounding whitespace, a sign, underscores and a `0b` prefix.
- `np.random.choice` and `time.time()` are nondeterministic. A sampled secret set is recorded only by its size.
- The `metrics` and `execute` modules are external collaborators: uniform distribution, polarization fidelity, metric storage, submission and plotting.
- The display caches `A_`, `Q_`, `cQ_`, `QC_`, `QFTI_` and all printing are left out.
- The global `_use_cu1_shim` is passed to the builders as a parameter.
- `cxcu1_units.clear()` followed by `+=` is modelled as replacing the work list with the next pass.
- Backend selection and the executor's `run` are network and SDK plumbing: the login fallback, compilation, submission and `get_result`.
- BenchmarkRun.Run: the secret only sets the RY angle of A, which the model keeps symbolic, so every circuit of a width is the same gate sequence in the model, while the code's circuits differ in that angle.
- BenchmarkRun.Params: `num_shots` (default 100) is left out, since it only reaches the execution of the circuits.
- BenchmarkRun.Params: a negative `num_state_qubits` is raised to 1 as in the code, but state-qubit counts are `nat` inside the builders.
- PytketExecutor.PytketResult.constructor: requires that every bit name parses; the failing case is modelled by `NewPytketResult`.
- PytketExecutor.PytketResult.GetCounts: `get_counts` returns the very dict the object stores, so a caller that mutates it changes the object; the model returns a value and does not capture this aliasing.
- Mcx.AddMcx: with no controls the code appends H(target) to the caller's circuit before `controls[-1]` raises IndexError; the model returns the error without that circuit.
