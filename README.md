# The ZoKrates arkworks backend adapter, modelled in Dafny

This project models the adapter that ZoKrates uses to hand a compiled
circuit to the arkworks proving libraries (`zokrates_core/src/proof_system/ark/mod.rs`).
It covers two parts.

The first part is **constraint synthesis**. `ProgIterator::generate_constraints` walks a
program's arguments and statements and drives an arkworks constraint system.
A symbol table maps circuit variables (`FlatVariable`) to backend handles and is
seeded with the constant `one`. Each variable's value is removed from the
witness the first time the variable is used, and a missing value is `AssignmentMissing`, which
`.unwrap()` turns into a panic. Every `Constraint` statement becomes one
`enforce_constraint(a, b, c)`, with `a`, `b` and `c` built by `ark_combination`. Whether
a value is read at all is decided by the constraint system's mode: in setup
mode it is not. The model also covers the computation wrapper (`with_witness`,
`without_witness`), `setup`, and `prove` with its self-check, over abstract key
generation, proving and verification.

The second part is the **serialisers** `parse_fr`, `parse_g1`, `parse_g2` and `parse_g2_fq`. They
turn the backend's native little-endian encoding into `0x`-prefixed,
lower-case, big-endian hexadecimal coordinates.

Modules, one per concern:

- `Wrappers` — `Option`.
- `R1cs` — the part of the arkworks constraint system the adapter drives:
  - a `ConstraintSystem` class with counters, assignments and enforced constraints, updated in place;
  - the value-level `CsState` and its operations;
  - what it means for a constraint to hold.
- `Ir` — the ZoKrates intermediate representation the adapter consumes:
  - variables, canonical linear combinations, statements, programs and witnesses;
  - what it means for a witness to satisfy a constraint.
- `Synthesis` — the synthesis pass:
  - as functions on a state snapshot (`Alloc`, `Entry`, `Combination`, `Arguments`, `Statements`, `Synthesize`);
  - as the in-place `Synthesizer` class and the `GenerateConstraints` method, each proved equal to those functions.
- `SynthesisProofs` — what a pass guarantees: memoisation, first-use allocation, visibility, witness consumption, the exact success condition, one constraint per statement in order, soundness of the emitted constraints, and independence of setup from the witness.
- `Protocol` — `Computation`, `setup` and `prove`.
- `Parse` — hex encoding and the four serialisers, with their round trips.

Two details of the code fix the model's shape:

- `parse_g1` and `parse_g2_fq` split the flagless encoding at `length / 2`, so on an odd length `y` gets the extra byte. `parse_g2` takes four limbs of `length / 4` bytes each and ignores up to three trailing bytes.
- A `Constraint`'s three combinations are allocated in the order left, right, output, each in its own term order. This order fixes which backend index each first-seen variable gets.

## Model

| member | source | states |
|---|---|---|
| R1cs.ConstraintSystem.constructor | zokrates_core/src/proof_system/ark/mod.rs:152-179 | stands for the backend's own fresh system, which `create_random_proof` and `generate_random_parameters` create before synthesis: only the constant `one` (instance 0, value 1), no witness variables and no constraints |
| R1cs.ConstraintSystem.NewInputVariable | zokrates_core/src/proof_system/ark/mod.rs:60-66 | hands out the next instance index; the value is recorded only outside setup mode |
| R1cs.ConstraintSystem.NewWitnessVariable | zokrates_core/src/proof_system/ark/mod.rs:67-73 | hands out the next witness index; the value is recorded only outside setup mode |
| R1cs.ConstraintSystem.EnforceConstraint | zokrates_core/src/proof_system/ark/mod.rs:140 | appends exactly the constraint `a * b = c` and changes nothing else |
| Synthesis.Alloc | zokrates_core/src/proof_system/ark/mod.rs:59-73 | outside setup mode, allocation succeeds exactly when the witness has the entry, and then removes just that entry; in setup mode it always succeeds and reads nothing; the handle is an instance exactly when asked to be public, and the table and constraints are untouched; a missing entry panics with `AssignmentMissing` |
| Synthesis.Entry | zokrates_core/src/proof_system/ark/mod.rs:58-76 | the table afterwards has exactly the old keys plus `k`, with `k` mapped to the handle returned; a variable already in the table leaves the state as it was; a failure happens only for a variable not yet in the table and is an `AssignmentMissing` panic |
| Synthesis.Argument | zokrates_core/src/proof_system/ark/mod.rs:99-116 | one argument adds exactly its id to the table, as an instance handle exactly when it is not private, and outside setup mode removes its id from the witness; the only failure is an `AssignmentMissing` panic |
| Synthesis.Step | zokrates_core/src/proof_system/ark/mod.rs:120-141 | a `Constraint` statement appends exactly one backend constraint and any other statement none, keeping the earlier constraints as a prefix; the only failure is an `AssignmentMissing` panic |
| Synthesis.Combination | zokrates_core/src/proof_system/ark/mod.rs:54-79 | the only way `ark_combination` can fail is a panic with `AssignmentMissing` |
| Synthesis.Arguments | zokrates_core/src/proof_system/ark/mod.rs:98-117 | the only way argument allocation can fail is a panic with `AssignmentMissing` |
| Synthesis.Statements | zokrates_core/src/proof_system/ark/mod.rs:119-142 | the only way the statement loop can fail is a panic with `AssignmentMissing` |
| Synthesis.Synthesize | zokrates_core/src/proof_system/ark/mod.rs:83-148 | with no constraint system (`ConstraintSystemRef::None`) the result is `Err(MissingCS)`; with one, every failure is an `AssignmentMissing` panic |
| Synthesis.Synthesizer.constructor | zokrates_core/src/proof_system/ark/mod.rs:89-93 | the table holds only `one ↦ backend one` (the inserted key was absent), and an absent witness is the empty one |
| Synthesis.Synthesizer.Allocate | zokrates_core/src/proof_system/ark/mod.rs:99-115 | one allocation: outside setup mode the entry is removed from the witness, or the call panics with `AssignmentMissing`; public or private as asked |
| Synthesis.Synthesizer.AddArgument | zokrates_core/src/proof_system/ark/mod.rs:98-117 | one argument in place: allocated as `Argument` says and its handle inserted under its id, or the same panic |
| Synthesis.Synthesizer.Emit | zokrates_core/src/proof_system/ark/mod.rs:120-141 | one statement in place: a `Constraint` builds its three combinations and enforces them as `Step` says; any other statement changes nothing |
| Synthesis.Synthesizer.ArkCombination | zokrates_core/src/proof_system/ark/mod.rs:48-80 | the in-place loop returns the same combination, table, witness and system as the specification `Combination`, or the same panic |
| Synthesis.GenerateConstraints | zokrates_core/src/proof_system/ark/mod.rs:83-148 | the in-place pass ends exactly as `Synthesize` says: the same success, the same resulting system, the same error or panic |
| SynthesisProofs.EntryReusesHandle | zokrates_core/src/proof_system/ark/mod.rs:58 | memoisation: after a successful lookup, asking for the same variable again returns the same handle and leaves the state exactly as the first lookup left it |
| SynthesisProofs.EntryFirstUse | zokrates_core/src/proof_system/ark/mod.rs:59-76 | an unseen output becomes the next instance variable and any other variable the next witness variable; outside setup mode exactly its entry leaves the witness; a missing entry panics with `AssignmentMissing` |
| SynthesisProofs.CombinationMemoized | zokrates_core/src/proof_system/ark/mod.rs:54-79 | a combination whose variables are all in the table allocates nothing, changes nothing, and pairs each coefficient with its handle |
| SynthesisProofs.CombinationResult | zokrates_core/src/proof_system/ark/mod.rs:54-79 | a successful `ark_combination` pairs each coefficient, in order, with its variable's handle; it adds exactly the combination's variables to the table, emits nothing, and only moves values from the witness to the table |
| SynthesisProofs.CombinationSucceedsIff | zokrates_core/src/proof_system/ark/mod.rs:58-75 | `ark_combination` succeeds if and only if in setup mode, or every variable is in the table or the witness |
| SynthesisProofs.ArgumentsResult | zokrates_core/src/proof_system/ark/mod.rs:98-117 | the arguments add exactly their ids to the table and emit nothing; outside setup mode they remove exactly their ids from the witness |
| SynthesisProofs.ArgumentsSucceedIff | zokrates_core/src/proof_system/ark/mod.rs:98-117 | outside setup mode, argument allocation succeeds if and only if no id is declared twice and every id has a witness entry |
| SynthesisProofs.ArgumentsKeepInvariant | zokrates_core/src/proof_system/ark/mod.rs:99-116 | each argument gets one handle, public exactly when it is not private, and the handles stay distinct, bounded and carry their witness values |
| SynthesisProofs.StepTable | zokrates_core/src/proof_system/ark/mod.rs:120-140 | one statement gains exactly its variables in the table and changes no existing handle |
| SynthesisProofs.StepEmits | zokrates_core/src/proof_system/ark/mod.rs:120-140 | a `Constraint` statement appends exactly one backend constraint, built from its three combinations |
| SynthesisProofs.StatementsTable | zokrates_core/src/proof_system/ark/mod.rs:119-142 | the statement loop gains exactly the statements' variables in the table, changes no handle, and only moves values from the witness to the table |
| SynthesisProofs.StatementsEmit | zokrates_core/src/proof_system/ark/mod.rs:119-142 | the statement loop appends exactly the lowered `Constraint` statements, in program order; other statements emit nothing |
| SynthesisProofs.StatementsSucceedIff | zokrates_core/src/proof_system/ark/mod.rs:119-142 | outside setup mode the statement loop succeeds if and only if every variable it mentions is in the table or the witness |
| SynthesisProofs.StatementsKeepInvariant | zokrates_core/src/proof_system/ark/mod.rs:119-142 | the allocation invariant (distinct, bounded, correctly valued and correctly visible handles; exact witness consumption) survives the statement loop |
| SynthesisProofs.ImageEval | zokrates_core/src/proof_system/ark/mod.rs:54-79 | under the proving pass's assignment, the backend combination evaluates to the circuit combination's value under the witness |
| SynthesisProofs.ConstraintEval | zokrates_core/src/proof_system/ark/mod.rs:120-140 | an emitted constraint holds on the backend if and only if the circuit constraint holds under the witness |
| SynthesisProofs.SynthesisEmitsOneConstraintPerStatement | zokrates_core/src/proof_system/ark/mod.rs:119-142 | a successful pass in either mode emits one backend constraint per `Constraint` statement, in program order, and nothing else |
| SynthesisProofs.SynthesisInvariant | zokrates_core/src/proof_system/ark/mod.rs:89-142 | after a whole pass, the allocation invariant holds against the original witness |
| SynthesisProofs.SynthesisTable | zokrates_core/src/proof_system/ark/mod.rs:89-142 | after a whole pass, the table holds exactly `one` and the referenced variables, and the mode is unchanged |
| SynthesisProofs.ProveModeAllocation | zokrates_core/src/proof_system/ark/mod.rs:89-142 | after a proving pass, each referenced variable has been allocated exactly once: one backend variable per entry, distinct handles carrying the witness values, visibility as the circuit says, and exactly the referenced entries removed from the witness |
| SynthesisProofs.SetupModeAllocation | zokrates_core/src/proof_system/ark/mod.rs:89-142 | a setup pass never fails and leaves the witness untouched; its table holds exactly `one` and the referenced variables, with well-formed handles and the declared visibility |
| SynthesisProofs.SetupMatchesProve | zokrates_core/src/proof_system/ark/mod.rs:83-148 | whenever a proving pass succeeds, a setup pass of the same program, with any witness or none, builds the same table, the same constraints and the same numbers of instance and witness variables |
| SynthesisProofs.ProveModeSucceedsIff | zokrates_core/src/proof_system/ark/mod.rs:98-142 | a proving pass succeeds if and only if no argument is declared twice and every referenced variable other than `one` has a witness entry; otherwise it panics with `AssignmentMissing` |
| SynthesisProofs.ProveModeSound | zokrates_core/src/proof_system/ark/mod.rs:119-142 | after a proving pass, the backend constraints are the circuit's, in order, and each holds if and only if the witness satisfies the matching circuit constraint |
| SynthesisProofs.SetupModeIgnoresWitness | zokrates_core/src/proof_system/ark/mod.rs:58-117 | a setup pass reads no value: it succeeds, keeps the witness it was given, and builds the same table and system for any witness or none |
| Protocol.WithWitness | zokrates_core/src/proof_system/ark/mod.rs:33-38 | the computation carries the program and the witness |
| Protocol.WithoutWitness | zokrates_core/src/proof_system/ark/mod.rs:40-45 | the computation carries the program and no witness |
| Protocol.SynthesizeComputation | zokrates_core/src/proof_system/ark/mod.rs:186-191 | the computation's own synthesis is the program's pass with the computation's witness |
| Protocol.Prove | zokrates_core/src/proof_system/ark/mod.rs:152-172 | a computation without a witness aborts (the `unwrap` at the public inputs), and so does one whose public inputs cannot be read; a returned proof is the one proof creation made from the proving pass's system, and it passes the self-check against the public inputs |
| Protocol.ProveReturnsIff | zokrates_core/src/proof_system/ark/mod.rs:152-164 | `prove` returns if and only if there is a witness, its public inputs can be read, no argument is declared twice, every referenced value is present, proof creation succeeds, and the created proof verifies |
| Protocol.ProveAbortsOnMissingValue | zokrates_core/src/proof_system/ark/mod.rs:155-157 | a witness lacking a referenced value, or an argument declared twice, makes `prove` abort before a proof exists: with `AssignmentMissing` when the public inputs could be read, and at the public inputs otherwise |
| Protocol.ProvedSystemIsSound | zokrates_core/src/proof_system/ark/mod.rs:155-163 | a returned proof was created from a system that has one constraint per circuit constraint, each satisfied exactly when the witness satisfies it |
| Protocol.Setup | zokrates_core/src/proof_system/ark/mod.rs:174-179 | a returned key is what key generation gives on the system a successful setup pass builds |
| Protocol.SetupReturnsIff | zokrates_core/src/proof_system/ark/mod.rs:174-179 | the setup pass never fails, so `setup` returns if and only if key generation succeeds on that pass's system; otherwise it aborts with the key-generation failure |
| Protocol.SetupIgnoresWitness | zokrates_core/src/proof_system/ark/mod.rs:174-179 | `setup` gives the same key with or without a witness |
| Protocol.SetupFitsProve | zokrates_core/src/proof_system/ark/mod.rs:152-179 | when `prove` returns, the setup pass of the same program built exactly the constraints and variable counts of the system the proof was created from |
| Parse.HexEncode | zokrates_core/src/proof_system/ark/mod.rs:276 | two lower-case hexadecimal digits per byte |
| Parse.HexRoundTrip | zokrates_core/src/proof_system/ark/mod.rs:276 | hex-decoding the encoding of any bytes gives back those bytes |
| Parse.Prefixed | zokrates_core/src/proof_system/ark/mod.rs:215-216 | `0x` followed by two lower-case hexadecimal digits per byte |
| Parse.Reverse | zokrates_core/src/proof_system/ark/mod.rs:274 | the reversal has the same length, and element `i` is element `len - 1 - i` of the input |
| Parse.ReverseInvolution | zokrates_core/src/proof_system/ark/mod.rs:211-212 | reversing twice gives back the input |
| Parse.PrefixedRoundTrip | zokrates_core/src/proof_system/ark/mod.rs:215-216 | stripping `0x` and hex-decoding a formatted coordinate gives back its bytes |
| Parse.Coordinate | zokrates_core/src/proof_system/ark/mod.rs:259-267 | a coordinate is `0x` followed by lower-case digits only, and it decodes, once reversed back, to the native bytes it was made from |
| Parse.ParseFr | zokrates_core/src/proof_system/ark/mod.rs:271-277 | `0x` followed by `2 * len` lower-case digits, which decode and reverse back to the native bytes |
| Parse.ParseFrInjective | zokrates_core/src/proof_system/ark/mod.rs:271-277 | distinct field encodings give distinct strings |
| Parse.FormattedUnique | zokrates_core/src/proof_system/ark/mod.rs:215-216 | two `0x`-prefixed lower-case strings that denote the same bytes are equal, so the serialisers' contracts fix their outputs exactly |
| Parse.ParseFrDetermined | zokrates_core/src/proof_system/ark/mod.rs:271-277 | any `0x`-prefixed lower-case string denoting the encoding is exactly what `parse_fr` writes |
| Parse.Halves | zokrates_core/src/proof_system/ark/mod.rs:205-209 | the flagless encoding is split at `(len - 1) / 2`, and the two halves together are exactly the encoding without its last byte |
| Parse.ParseG1 | zokrates_core/src/proof_system/ark/mod.rs:199-218 | `x` and `y` are `0x` followed by lower-case digits; decoding them, reversing each and joining them gives back the encoding without the flag byte; `y` is one byte longer exactly when that length is odd |
| Parse.ParseG2Fq | zokrates_core/src/proof_system/ark/mod.rs:250-269 | the same lower-case format and the same round trip as `parse_g1`, without the flag byte |
| Parse.HalvesIgnoreFlag | zokrates_core/src/proof_system/ark/mod.rs:205 | the infinity-flag byte never affects the output of `parse_g1` or `parse_g2_fq` |
| Parse.Quarters | zokrates_core/src/proof_system/ark/mod.rs:226-236 | four limbs of `(len - 1) / 4` bytes each, all within bounds; together they are the first four limbs' worth of bytes, the whole flagless encoding when its length is a multiple of four |
| Parse.ParseG2 | zokrates_core/src/proof_system/ark/mod.rs:220-248 | all four coordinates are `0x` followed by lower-case digits, and `((l0, l1), (l2, l3))` decode, once reversed back, to the four limbs in order |
| Parse.ParseG2IgnoresTail | zokrates_core/src/proof_system/ark/mod.rs:226-233 | neither the flag byte nor the bytes past the fourth limb affect the output of `parse_g2` |

## Left out

- `into_canonical` and the definition of `FlatVariable` (`flat_absy`) are not part of this model. Combinations arrive in canonical form, and the variable convention is taken as given: id 0 is `one`, and negative ids are outputs (`is_output`).
- Synthesis.Combination: the result is the sequence of (coefficient, handle) terms in the circuit's canonical order. The fold with arkworks' `LinearCombination` addition at line 79 also merges terms and sorts them by backend variable; that merging and sorting is not modelled, and neither is the backend's matrix construction.
- Field elements are unbounded integers. Reduction modulo the scalar field's prime, and the field conversion `into_ark`, are not modelled.
- The backend's `enforce_constraint` is treated as never failing, so the `?` at line 140 has no error path here.
- `public_inputs` (its body is not part of this model) is a function parameter of `Prove` that may fail (`None`, the abort `PublicInputsFailed`). Nothing ties its success to the witness, so when it fails on a witness that lacks a value, Protocol.ProveAbortsOnMissingValue names only that abort, not the value that is missing.
- `create_random_proof`, `generate_random_parameters`, `prepare_verifying_key` and `verify_proof` are function parameters. These are the pairing-based cryptography of the backend. Key generation, proof creation and verification each return an `Option`, and `None` stands for the `Err` that `.unwrap()` turns into a panic (lines 157, 161 and 178). `prepare_verifying_key` is folded into the verification parameter.
- A `WellFormed` program never declares the constant `one` among its arguments; the ZoKrates compiler never does. Without that, `symbols.extend` at line 98 would overwrite the handle of `one`. SynthesisProofs.SynthesisInvariant, SynthesisProofs.ProveModeAllocation, SynthesisProofs.SetupModeAllocation, SynthesisProofs.ProveModeSucceedsIff, SynthesisProofs.ProveModeSound, Protocol.ProveReturnsIff, Protocol.ProveAbortsOnMissingValue and Protocol.ProvedSystemIsSound assume `WellFormed`.
- The randomness `StdRng::from_entropy()` is part of the key-generation and proving parameters.
- The `gm17` and `marlin` submodules are not part of this model.
- `ToBytes::write` is not modelled; the serialisers take the native byte encoding as their input.
- The `RefCell` borrow of `ConstraintSystemRef` is replaced by a plain object. A null reference stands for `ConstraintSystemRef::None`.
- Programs iterate their statements once; here, statements are a sequence.
- Parse.ParseG1: requires at least one byte, because `len() - 1` underflows on an empty encoding. The backend's point encodings always end with the flag byte.
- Parse.ParseG2Fq: requires at least one byte, for the same reason as `parse_g1`.
- Parse.ParseG2: requires at least one byte, for the same reason as `parse_g1`.
- The command-line integration tests are not modelled; they spawn processes and touch the file system.
