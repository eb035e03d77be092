/**
 * The adapter's entry points: a `Computation` pairs a program with an
 * optional witness; `setup` synthesises it in setup mode and derives a
 * proving key; `prove` synthesises it in proving mode, creates a proof and
 * checks that proof against the key's own verifying key before returning it.
 *
 * Key generation, proof creation and verification are pairing-based
 * cryptography of the backend, and the program's public-input extraction is
 * outside the adapter; here they are function parameters, each of which may
 * fail (`None`). The randomness they draw is part of those parameters.
 */
module Protocol {
  import opened Wrappers
  import opened R1cs
  import opened Ir
  import opened Synthesis
  import opened SynthesisProofs

  /** A program and, for proving, its witness (`assignment`). */
  datatype Computation = Computation(program: Program, assignment: Option<Witness>)

  /** `Computation::with_witness`. */
  function WithWitness(p: Program, w: Witness): (c: Computation)
    ensures c.program == p && c.assignment == Some(w)
  {
    Computation(p, Some(w))
  }

  /** `Computation::without_witness`. */
  function WithoutWitness(p: Program): (c: Computation)
    ensures c.program == p && c.assignment.None?
  {
    Computation(p, None)
  }

  /** Why an entry point aborts: an `.unwrap()` on an error, or a failed assertion. */
  datatype Abort =
    | SynthesisFailed(error: SynthesisError)
    | KeyGenerationFailed
    | NoWitness
    | PublicInputsFailed
    | ProofCreationFailed
    | VerifierError
    | SelfCheckFailed

  datatype Run<+T> = Returned(value: T) | Aborted(reason: Abort)

  /** `ConstraintSynthesizer::generate_constraints` for a computation: the program's own pass with its witness. */
  method SynthesizeComputation(c: Computation, cs: ConstraintSystem?) returns (r: Outcome<()>)
    modifies cs
    ensures var spec := Synthesize(c.program, old(StateOf(cs)), c.assignment);
      && r.Ok? == spec.Ok?
      && (spec.Ok? ==> cs != null && cs.State() == spec.value.cs)
      && (!spec.Ok? ==> r == spec.Cast())
  {
    r := GenerateConstraints(c.program, cs, c.assignment);
  }

  /** The reason an unsuccessful synthesis aborts its caller. */
  function Failure<T>(o: Outcome<T>): Abort
    requires !o.Ok?
  {
    SynthesisFailed(if o.Err? then o.error else o.cause)
  }

  /** The constraint system a synthesis pass on a fresh system of the given mode builds. */
  function Synthesized(c: Computation, setupMode: bool): Outcome<Ctx> {
    Synthesize(c.program, Some(Fresh(setupMode)), c.assignment)
  }

  /**
   * `setup`: key generation over the constraint system a setup pass builds.
   * A failed pass or a failed key generation aborts through `.unwrap()`.
   */
  function Setup<K>(c: Computation, keygen: CsState -> Option<K>): (r: Run<K>)
    ensures r.Returned? ==> Synthesized(c, true).Ok? && keygen(Synthesized(c, true).value.cs) == Some(r.value)
  {
    var o := Synthesized(c, true);
    if !o.Ok? then Aborted(Failure(o))
    else
      match keygen(o.value.cs)
      case None => Aborted(KeyGenerationFailed)
      case Some(key) => Returned(key)
  }

  /**
   * `prove`. The public inputs are read first, so a computation without a
   * witness, or one whose public inputs cannot be read, aborts before
   * anything else; then the proving pass runs, the proof is created, and the
   * proof is returned only if it verifies against the verifying key of `pk`
   * with those public inputs.
   */
  function Prove<K, P>(
    c: Computation, pk: K,
    publicInputs: (Program, Witness) -> Option<seq<Fr>>,
    createProof: (K, CsState) -> Option<P>,
    verify: (K, P, seq<Fr>) -> Option<bool>): (r: Run<P>)
    ensures c.assignment.None? ==> r == Aborted(NoWitness)
    ensures c.assignment.Some? && publicInputs(c.program, c.assignment.value).None? ==> r == Aborted(PublicInputsFailed)
    ensures r.Returned? ==>
      && c.assignment.Some? && publicInputs(c.program, c.assignment.value).Some?
      && Synthesized(c, false).Ok?
      && createProof(pk, Synthesized(c, false).value.cs) == Some(r.value)
      && verify(pk, r.value, publicInputs(c.program, c.assignment.value).value) == Some(true)
  {
    if c.assignment.None? then Aborted(NoWitness)
    else if publicInputs(c.program, c.assignment.value).None? then Aborted(PublicInputsFailed)
    else
      var inputs := publicInputs(c.program, c.assignment.value).value;
      var o := Synthesized(c, false);
      if !o.Ok? then Aborted(Failure(o))
      else
        match createProof(pk, o.value.cs)
        case None => Aborted(ProofCreationFailed)
        case Some(proof) =>
          match verify(pk, proof, inputs)
          case None => Aborted(VerifierError)
          case Some(false) => Aborted(SelfCheckFailed)
          case Some(true) => Returned(proof)
  }

  // ----- properties of the entry points -----

  /**
   * The setup pass never fails, whatever the program, so `setup` returns
   * exactly when key generation over that pass's system succeeds, and
   * otherwise aborts for that reason alone.
   */
  lemma SetupReturnsIff<K>(c: Computation, keygen: CsState -> Option<K>)
    ensures Synthesized(c, true).Ok?
    ensures Setup(c, keygen).Returned? <==> keygen(Synthesized(c, true).value.cs).Some?
    ensures !Setup(c, keygen).Returned? ==> Setup(c, keygen) == Aborted(KeyGenerationFailed)
  {
    SetupModeIgnoresWitness(c.program, Fresh(true), c.assignment, None);
  }

  /** Setup builds the same key whether the computation carries a witness or not. */
  lemma SetupIgnoresWitness<K>(p: Program, w: Witness, keygen: CsState -> Option<K>)
    ensures Setup(WithWitness(p, w), keygen) == Setup(WithoutWitness(p), keygen)
  {
    SetupModeIgnoresWitness(p, Fresh(true), Some(w), None);
  }

  /**
   * `prove` returns exactly when there is a witness, its public inputs can be
   * read, the proving pass finds every value it needs, proof creation
   * succeeds and the created proof passes the self-check.
   */
  lemma ProveReturnsIff<K, P>(
    c: Computation, pk: K,
    publicInputs: (Program, Witness) -> Option<seq<Fr>>,
    createProof: (K, CsState) -> Option<P>,
    verify: (K, P, seq<Fr>) -> Option<bool>)
    requires WellFormed(c.program)
    ensures Prove(c, pk, publicInputs, createProof, verify).Returned? <==>
      && c.assignment.Some?
      && publicInputs(c.program, c.assignment.value).Some?
      && DistinctArguments(c.program.arguments)
      && Referenced(c.program) - {FlatVariable.One()} <= c.assignment.value.Keys
      && Synthesized(c, false).Ok?
      && createProof(pk, Synthesized(c, false).value.cs).Some?
      && verify(pk, createProof(pk, Synthesized(c, false).value.cs).value, publicInputs(c.program, c.assignment.value).value) == Some(true)
  {
    if c.assignment.Some? {
      ProveModeSucceedsIff(c.program, Fresh(false), c.assignment.value);
    }
  }

  /**
   * A witness lacking a referenced value, or an argument declared twice,
   * makes `prove` abort before any proof is created: with `AssignmentMissing`
   * from the proving pass when the public inputs could be read, and at the
   * public inputs otherwise.
   */
  lemma ProveAbortsOnMissingValue<K, P>(
    p: Program, w: Witness, pk: K,
    publicInputs: (Program, Witness) -> Option<seq<Fr>>,
    createProof: (K, CsState) -> Option<P>,
    verify: (K, P, seq<Fr>) -> Option<bool>)
    requires WellFormed(p)
    requires !DistinctArguments(p.arguments) || !(Referenced(p) - {FlatVariable.One()} <= w.Keys)
    ensures Prove(WithWitness(p, w), pk, publicInputs, createProof, verify) ==
      if publicInputs(p, w).Some? then Aborted(SynthesisFailed(AssignmentMissing)) else Aborted(PublicInputsFailed)
  {
    ProveModeSucceedsIff(p, Fresh(false), w);
  }

  /**
   * The system a returned proof was created from is the circuit's: one
   * backend constraint per circuit constraint, each satisfied exactly when
   * the witness satisfies the circuit constraint.
   */
  lemma ProvedSystemIsSound<K, P>(
    p: Program, w: Witness, pk: K,
    publicInputs: (Program, Witness) -> Option<seq<Fr>>,
    createProof: (K, CsState) -> Option<P>,
    verify: (K, P, seq<Fr>) -> Option<bool>)
    requires WellFormed(p)
    requires Prove(WithWitness(p, w), pk, publicInputs, createProof, verify).Returned?
    ensures Synthesized(WithWitness(p, w), false).Ok?
    ensures var s := Synthesized(WithWitness(p, w), false).value.cs;
      var qs := ConstraintsOf(p.statements);
      && createProof(pk, s) == Some(Prove(WithWitness(p, w), pk, publicInputs, createProof, verify).value)
      && |s.constraints| == |qs|
      && forall j | 0 <= j < |qs| :: Holds(s, s.constraints[j]) <==> HoldsIr(w, qs[j])
  {
    ProveModeSound(p, w);
  }

  /**
   * The key fits the proof: when `prove` returns, the setup pass of the same
   * program, with or without the witness, built the very table, constraints
   * and variable counts from which the proof was created.
   */
  lemma SetupFitsProve<K, P>(
    p: Program, w: Witness, pk: K,
    publicInputs: (Program, Witness) -> Option<seq<Fr>>,
    createProof: (K, CsState) -> Option<P>,
    verify: (K, P, seq<Fr>) -> Option<bool>)
    requires Prove(WithWitness(p, w), pk, publicInputs, createProof, verify).Returned?
    ensures Synthesized(WithoutWitness(p), true).Ok? && Synthesized(WithWitness(p, w), false).Ok?
    ensures var s, q := Synthesized(WithoutWitness(p), true).value.cs, Synthesized(WithWitness(p, w), false).value.cs;
      && s.constraints == q.constraints
      && s.numInstance == q.numInstance
      && s.numWitness == q.numWitness
  {
    SetupMatchesProve(p, None, w);
  }
}
