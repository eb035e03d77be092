/**
 * The part of the arkworks constraint-system interface that the adapter
 * drives: variable allocation (public instance variables and private witness
 * variables), the built-in constant `one`, and `enforce_constraint`.
 *
 * Field elements are integers; reduction modulo the scalar field's prime
 * is not modelled (every equation the model proves between sums holds over
 * the integers and therefore also modulo any prime).
 */
module R1cs {
  import opened Wrappers

  type Fr = int

  /** A backend variable handle. Instance variables are public, witness variables private. */
  datatype Variable = One | Instance(index: nat) | Witness(index: nat)

  /** A backend linear combination: a sequence of (coefficient, handle) terms. */
  type LinearCombination = seq<(Fr, Variable)>

  /** One enforced rank-1 constraint `a * b = c`. */
  datatype Enforced = Enforced(a: LinearCombination, b: LinearCombination, c: LinearCombination)

  /**
   * The abstract state of a constraint system. Instance index 0 is the
   * constant one, so a fresh system has one instance variable and the
   * instance assignment `[1]`. In setup mode no value is ever recorded.
   */
  datatype CsState = CsState(
    setupMode: bool,
    numInstance: nat,
    numWitness: nat,
    instanceAssignment: seq<Fr>,
    witnessAssignment: seq<Fr>,
    constraints: seq<Enforced>)

  /** The result of allocating one variable: the new state and the handle. */
  datatype Allocation = Allocation(state: CsState, handle: Variable)

  function Fresh(setupMode: bool): CsState {
    CsState(setupMode, 1, 0, [1], [], [])
  }

  /** `new_input_variable`: the next instance index; the value is recorded only outside setup mode. */
  function NewInput(s: CsState, value: Fr): Allocation {
    var assignment := if s.setupMode then s.instanceAssignment else s.instanceAssignment + [value];
    Allocation(s.(numInstance := s.numInstance + 1, instanceAssignment := assignment),
               Instance(s.numInstance))
  }

  /** `new_witness_variable`: the next witness index; the value is recorded only outside setup mode. */
  function NewWitness(s: CsState, value: Fr): Allocation {
    var assignment := if s.setupMode then s.witnessAssignment else s.witnessAssignment + [value];
    Allocation(s.(numWitness := s.numWitness + 1, witnessAssignment := assignment),
               Witness(s.numWitness))
  }

  /** `enforce_constraint(a, b, c)`: records the constraint. */
  function Enforce(s: CsState, a: LinearCombination, b: LinearCombination, c: LinearCombination): CsState {
    s.(constraints := s.constraints + [Enforced(a, b, c)])
  }

  /** The value a handle has under the recorded assignment, if any. */
  function Val(s: CsState, v: Variable): Option<Fr> {
    match v
    case One => Some(1)
    case Instance(i) => if i < |s.instanceAssignment| then Some(s.instanceAssignment[i]) else None
    case Witness(i) => if i < |s.witnessAssignment| then Some(s.witnessAssignment[i]) else None
  }

  predicate Defined(s: CsState, lc: LinearCombination) {
    forall i | 0 <= i < |lc| :: Val(s, lc[i].1).Some?
  }

  /** The value of a linear combination under the recorded assignment. */
  function Eval(s: CsState, lc: LinearCombination): Fr
    requires Defined(s, lc)
  {
    if lc == [] then 0 else lc[0].0 * Val(s, lc[0].1).value + Eval(s, lc[1..])
  }

  /** The assignment satisfies the constraint `a * b = c`. */
  predicate Holds(s: CsState, e: Enforced) {
    Defined(s, e.a) && Defined(s, e.b) && Defined(s, e.c) && Eval(s, e.a) * Eval(s, e.b) == Eval(s, e.c)
  }

  /** The backend constraint system, updated in place by the adapter. */
  class ConstraintSystem {
    const setupMode: bool
    var numInstance: nat
    var numWitness: nat
    var instanceAssignment: seq<Fr>
    var witnessAssignment: seq<Fr>
    var constraints: seq<Enforced>

    function State(): CsState
      reads this
    {
      CsState(setupMode, numInstance, numWitness, instanceAssignment, witnessAssignment, constraints)
    }

    constructor (setupMode: bool)
      ensures State() == Fresh(setupMode)
    {
      this.setupMode := setupMode;
      numInstance, numWitness := 1, 0;
      instanceAssignment, witnessAssignment := [1], [];
      constraints := [];
    }

    method NewInputVariable(value: Fr) returns (v: Variable)
      modifies this
      ensures Allocation(State(), v) == NewInput(old(State()), value)
    {
      v := Instance(numInstance);
      numInstance := numInstance + 1;
      if !setupMode {
        instanceAssignment := instanceAssignment + [value];
      }
    }

    method NewWitnessVariable(value: Fr) returns (v: Variable)
      modifies this
      ensures Allocation(State(), v) == NewWitness(old(State()), value)
    {
      v := Witness(numWitness);
      numWitness := numWitness + 1;
      if !setupMode {
        witnessAssignment := witnessAssignment + [value];
      }
    }

    method EnforceConstraint(a: LinearCombination, b: LinearCombination, c: LinearCombination)
      modifies this
      ensures State() == Enforce(old(State()), a, b, c)
    {
      constraints := constraints + [Enforced(a, b, c)];
    }
  }
}
