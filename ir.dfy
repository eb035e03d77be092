/**
 * The circuit-level intermediate representation the adapter consumes:
 * variables, canonical linear combinations, statements, programs and
 * witnesses. Canonicalisation itself (`into_canonical`) happens upstream;
 * a `Constraint` statement here already carries its three canonical
 * combinations.
 */
module Ir {
  import opened Wrappers
  import opened R1cs

  /**
   * A circuit variable. Following the IR's convention, id 0 is the constant
   * `one` and negative ids are the program's public outputs.
   */
  datatype FlatVariable = FlatVariable(id: int) {
    static function One(): FlatVariable {
      FlatVariable(0)
    }

    predicate IsOutput() {
      id < 0
    }
  }

  /** A canonical linear combination: (variable, coefficient) terms in canonical order. */
  type CanonicalLinComb = seq<(FlatVariable, Fr)>

  /** `Constraint(left * right = lin)`; every other statement kind is a `Directive`. */
  datatype Statement =
    | Constraint(left: CanonicalLinComb, right: CanonicalLinComb, lin: CanonicalLinComb)
    | Directive

  /** A program argument: its variable and whether it is private. */
  datatype Parameter = Parameter(id: FlatVariable, private: bool)

  datatype Program = Program(arguments: seq<Parameter>, statements: seq<Statement>)

  /** Concrete values of circuit variables. */
  type Witness = map<FlatVariable, Fr>

  /** No argument is the constant variable (the IR never declares it as one). */
  predicate WellFormed(p: Program) {
    forall i | 0 <= i < |p.arguments| :: p.arguments[i].id != FlatVariable.One()
  }

  /** No variable is declared as an argument twice. */
  predicate DistinctArguments(args: seq<Parameter>) {
    forall i, j | 0 <= i < j < |args| :: args[i].id != args[j].id
  }

  function ArgumentIds(args: seq<Parameter>): set<FlatVariable> {
    set i | 0 <= i < |args| :: args[i].id
  }

  function Keys(l: CanonicalLinComb): set<FlatVariable> {
    set i | 0 <= i < |l| :: l[i].0
  }

  /** The variables a statement mentions: those of its three combinations for a `Constraint`. */
  function KeysOf(s: Statement): set<FlatVariable> {
    match s
    case Constraint(l, r, o) => Keys(l) + Keys(r) + Keys(o)
    case Directive => {}
  }

  /** Every variable the statements of `ss` mention. */
  function StatementKeys(ss: seq<Statement>): set<FlatVariable> {
    if ss == [] then {} else KeysOf(ss[0]) + StatementKeys(ss[1..])
  }

  /** Every variable the program refers to: its arguments and the variables of its constraints. */
  function Referenced(p: Program): set<FlatVariable> {
    ArgumentIds(p.arguments) + StatementKeys(p.statements)
  }

  /** The `Constraint` statements of `ss`, in program order. */
  function ConstraintsOf(ss: seq<Statement>): (qs: seq<Statement>)
    ensures |qs| <= |ss|
    ensures forall j | 0 <= j < |qs| :: qs[j].Constraint?
  {
    if ss == [] then []
    else (if ss[0].Constraint? then [ss[0]] else []) + ConstraintsOf(ss[1..])
  }

  /** The value of a circuit variable: one for the constant, the witness entry otherwise. */
  function Value(w: Witness, k: FlatVariable): Option<Fr> {
    if k == FlatVariable.One() then Some(1)
    else if k in w then Some(w[k])
    else None
  }

  predicate Assigned(w: Witness, l: CanonicalLinComb) {
    forall i | 0 <= i < |l| :: Value(w, l[i].0).Some?
  }

  function EvalIr(w: Witness, l: CanonicalLinComb): Fr
    requires Assigned(w, l)
  {
    if l == [] then 0 else l[0].1 * Value(w, l[0].0).value + EvalIr(w, l[1..])
  }

  /** The witness satisfies the constraint statement `q`. */
  predicate HoldsIr(w: Witness, q: Statement)
    requires q.Constraint?
  {
    Assigned(w, q.left) && Assigned(w, q.right) && Assigned(w, q.lin)
    && EvalIr(w, q.left) * EvalIr(w, q.right) == EvalIr(w, q.lin)
  }
}
