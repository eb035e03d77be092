/**
 * Constraint synthesis with a memoised variable allocator: the arkworks
 * adapter's `ark_combination` and `ProgIterator::generate_constraints`.
 *
 * The synthesis state is a symbol table from circuit variables to backend
 * handles, a witness whose entries are removed as they are consumed, and the
 * backend constraint system. The functions below give the meaning of every
 * step on an abstract snapshot `Ctx` of that state; the class `Synthesizer`
 * and the method `GenerateConstraints` perform the same steps in place and
 * are proved to agree with them.
 */
module Synthesis {
  import opened Wrappers
  import opened R1cs
  import opened Ir

  datatype SynthesisError = AssignmentMissing | MissingCS

  /**
   * `Ok` and `Err` are the values a synthesis call returns; `Panic` stands
   * for a `.unwrap()` on an error, which aborts the process so that no
   * constraint system reaches the caller.
   */
  datatype Outcome<+T> = Ok(value: T) | Err(error: SynthesisError) | Panic(cause: SynthesisError) {
    function Cast<U>(): Outcome<U>
      requires !Ok?
    {
      if Err? then Err(error) else Panic(cause)
    }
  }

  /** A snapshot of the synthesis state. */
  datatype Ctx = Ctx(symbols: map<FlatVariable, Variable>, remaining: Witness, cs: CsState)

  datatype Allocated = Allocated(ctx: Ctx, handle: Variable)

  datatype Combined = Combined(ctx: Ctx, lc: LinearCombination)

  /** The state right after the symbol table has been seeded with the constant. */
  function Seed(s: CsState, w: Option<Witness>): Ctx {
    Ctx(map[FlatVariable.One() := One], w.GetOr(map[]), s)
  }

  /**
   * One call of `new_input_variable` (public) or `new_witness_variable`
   * (private) whose value closure removes `k` from the witness. Outside
   * setup mode the closure runs, and a missing entry makes `.unwrap()`
   * panic; in setup mode the closure never runs, so the witness is not read.
   */
  function Alloc(c: Ctx, k: FlatVariable, public: bool): (r: Outcome<Allocated>)
    ensures r.Ok? <==> c.cs.setupMode || k in c.remaining
    ensures !r.Ok? ==> r == Panic(AssignmentMissing)
    ensures r.Ok? ==>
      && r.value.handle.Instance? == public
      && r.value.ctx.symbols == c.symbols
      && r.value.ctx.remaining == (if c.cs.setupMode then c.remaining else c.remaining - {k})
      && r.value.ctx.cs.constraints == c.cs.constraints
  {
    if !c.cs.setupMode && k !in c.remaining then Panic(AssignmentMissing)
    else
      var value := if c.cs.setupMode then 0 else c.remaining[k];
      var rest := if c.cs.setupMode then c.remaining else c.remaining - {k};
      var a := if public then NewInput(c.cs, value) else NewWitness(c.cs, value);
      Ok(Allocated(c.(remaining := rest, cs := a.state), a.handle))
  }

  /**
   * `symbols.entry(k).or_insert_with(..)`: the memoised handle of `k`, or a
   * fresh one whose visibility is that of `k.is_output()`.
   */
  function Entry(c: Ctx, k: FlatVariable): (r: Outcome<Allocated>)
    ensures !r.Ok? ==> k !in c.symbols && r == Panic(AssignmentMissing)
    ensures r.Ok? ==>
      && r.value.ctx.symbols.Keys == c.symbols.Keys + {k}
      && r.value.ctx.symbols[k] == r.value.handle
      && (k in c.symbols ==> r.value.ctx == c)
  {
    if k in c.symbols then Ok(Allocated(c, c.symbols[k]))
    else
      var a := Alloc(c, k, k.IsOutput());
      if !a.Ok? then a.Cast()
      else Ok(Allocated(a.value.ctx.(symbols := a.value.ctx.symbols[k := a.value.handle]), a.value.handle))
  }

  /**
   * `ark_combination`: the terms of `l` in order, each coefficient paired
   * with the handle of its variable, appended to `acc`.
   */
  function Combination(c: Ctx, l: CanonicalLinComb, acc: LinearCombination): (r: Outcome<Combined>)
    ensures !r.Ok? ==> r == Panic(AssignmentMissing)
    ensures r.Ok? ==>
      && |r.value.lc| == |acc| + |l|
      && r.value.ctx.cs.constraints == c.cs.constraints
    decreases |l|
  {
    if l == [] then Ok(Combined(c, acc))
    else
      var e := Entry(c, l[0].0);
      if !e.Ok? then e.Cast()
      else Combination(e.value.ctx, l[1..], acc + [(l[0].1, e.value.handle)])
  }

  /**
   * One argument of `symbols.extend(..)`: a witness variable if the argument
   * is private, an instance variable otherwise, inserted under its id.
   */
  function Argument(c: Ctx, p: Parameter): (r: Outcome<Ctx>)
    ensures !r.Ok? ==> r == Panic(AssignmentMissing)
    ensures r.Ok? ==>
      && r.value.symbols.Keys == c.symbols.Keys + {p.id}
      && r.value.symbols[p.id].Instance? == !p.private
      && r.value.remaining == (if c.cs.setupMode then c.remaining else c.remaining - {p.id})
  {
    var a := Alloc(c, p.id, !p.private);
    if !a.Ok? then a.Cast()
    else Ok(a.value.ctx.(symbols := a.value.ctx.symbols[p.id := a.value.handle]))
  }

  function Arguments(c: Ctx, args: seq<Parameter>): (r: Outcome<Ctx>)
    ensures !r.Ok? ==> r == Panic(AssignmentMissing)
    decreases |args|
  {
    if args == [] then Ok(c)
    else
      var d := Argument(c, args[0]);
      if !d.Ok? then d.Cast() else Arguments(d.value, args[1..])
  }

  /** One iteration of the statement loop: a `Constraint` becomes one `enforce_constraint`. */
  function Step(c: Ctx, s: Statement): (r: Outcome<Ctx>)
    ensures !r.Ok? ==> r == Panic(AssignmentMissing)
    ensures r.Ok? ==>
      |r.value.cs.constraints| == |c.cs.constraints| + (if s.Constraint? then 1 else 0)
      && r.value.cs.constraints[..|c.cs.constraints|] == c.cs.constraints
  {
    match s
    case Directive => Ok(c)
    case Constraint(left, right, lin) =>
      var a := Combination(c, left, []);
      if !a.Ok? then a.Cast()
      else
        var b := Combination(a.value.ctx, right, []);
        if !b.Ok? then b.Cast()
        else
          var o := Combination(b.value.ctx, lin, []);
          if !o.Ok? then o.Cast()
          else Ok(o.value.ctx.(cs := Enforce(o.value.ctx.cs, a.value.lc, b.value.lc, o.value.lc)))
  }

  function Statements(c: Ctx, ss: seq<Statement>): (r: Outcome<Ctx>)
    ensures !r.Ok? ==> r == Panic(AssignmentMissing)
    decreases |ss|
  {
    if ss == [] then Ok(c)
    else
      var d := Step(c, ss[0]);
      if !d.Ok? then d.Cast() else Statements(d.value, ss[1..])
  }

  /**
   * `ProgIterator::generate_constraints`: `cs` is `None` for
   * `ConstraintSystemRef::None` and otherwise the state of the referenced
   * system; a missing witness is the empty one.
   */
  function Synthesize(p: Program, cs: Option<CsState>, w: Option<Witness>): (r: Outcome<Ctx>)
    ensures cs.None? ==> r == Err(MissingCS)
    ensures cs.Some? && !r.Ok? ==> r == Panic(AssignmentMissing)
  {
    match cs
    case None => Err(MissingCS)
    case Some(s) =>
      var a := Arguments(Seed(s, w), p.arguments);
      if !a.Ok? then a.Cast() else Statements(a.value, p.statements)
  }

  /** The three pieces of state of one synthesis pass. */
  class Synthesizer {
    var symbols: map<FlatVariable, Variable>
    var remaining: Witness
    const cs: ConstraintSystem

    function Snapshot(): Ctx
      reads this, cs
    {
      Ctx(symbols, remaining, cs.State())
    }

    /** Seeds the table with the constant only; a missing witness becomes the empty one. */
    constructor (cs: ConstraintSystem, w: Option<Witness>)
      ensures this.cs == cs
      ensures Snapshot() == Seed(cs.State(), w)
    {
      this.cs := cs;
      this.remaining := w.GetOr(map[]);
      var table: map<FlatVariable, Variable> := map[];
      assert FlatVariable.One() !in table;
      symbols := table[FlatVariable.One() := One];
    }

    /** Allocates one backend variable for `k`, running the value closure outside setup mode. */
    method Allocate(k: FlatVariable, public: bool) returns (r: Outcome<Variable>)
      modifies this, cs
      ensures var spec := Alloc(old(Snapshot()), k, public);
        && r.Ok? == spec.Ok?
        && (spec.Ok? ==> r.value == spec.value.handle && Snapshot() == spec.value.ctx)
        && (!spec.Ok? ==> r == spec.Cast())
    {
      var value: Fr := 0;
      if !cs.setupMode {
        if k !in remaining {
          return Panic(AssignmentMissing);
        }
        value := remaining[k];
        remaining := remaining - {k};
      }
      var h;
      if public {
        h := cs.NewInputVariable(value);
      } else {
        h := cs.NewWitnessVariable(value);
      }
      return Ok(h);
    }

    /** `ark_combination`. */
    method ArkCombination(l: CanonicalLinComb) returns (r: Outcome<LinearCombination>)
      modifies this, cs
      ensures var spec := Combination(old(Snapshot()), l, []);
        && r.Ok? == spec.Ok?
        && (spec.Ok? ==> r.value == spec.value.lc && Snapshot() == spec.value.ctx)
        && (!spec.Ok? ==> r == spec.Cast())
    {
      var acc: LinearCombination := [];
      var i := 0;
      while i < |l|
        invariant 0 <= i <= |l|
        invariant Combination(old(Snapshot()), l, []) == Combination(Snapshot(), l[i..], acc)
      {
        var (k, v) := l[i];
        assert l[i..][1..] == l[i + 1..];
        var h;
        if k in symbols {
          h := symbols[k];
        } else {
          var a := Allocate(k, k.IsOutput());
          if !a.Ok? {
            return a.Cast();
          }
          h := a.value;
          symbols := symbols[k := h];
        }
        acc := acc + [(v, h)];
        i := i + 1;
      }
      return Ok(acc);
    }

    /** One argument of `symbols.extend(..)`: allocate it, then insert its handle. */
    method AddArgument(param: Parameter) returns (r: Outcome<()>)
      modifies this, cs
      ensures var spec := Argument(old(Snapshot()), param);
        && r.Ok? == spec.Ok?
        && (spec.Ok? ==> Snapshot() == spec.value)
        && (!spec.Ok? ==> r == spec.Cast())
    {
      var wire := Allocate(param.id, !param.private);
      if !wire.Ok? {
        return wire.Cast();
      }
      symbols := symbols[param.id := wire.value];
      return Ok(());
    }

    /** One iteration of the statement loop. */
    method Emit(statement: Statement) returns (r: Outcome<()>)
      modifies this, cs
      ensures var spec := Step(old(Snapshot()), statement);
        && r.Ok? == spec.Ok?
        && (spec.Ok? ==> Snapshot() == spec.value)
        && (!spec.Ok? ==> r == spec.Cast())
    {
      match statement {
        case Constraint(left, right, lin) =>
          var a := ArkCombination(left);
          if !a.Ok? {
            return a.Cast();
          }
          var b := ArkCombination(right);
          if !b.Ok? {
            return b.Cast();
          }
          var c := ArkCombination(lin);
          if !c.Ok? {
            return c.Cast();
          }
          cs.EnforceConstraint(a.value, b.value, c.value);
        case Directive =>
      }
      return Ok(());
    }
  }

  function StateOf(cs: ConstraintSystem?): Option<CsState>
    reads cs
  {
    if cs == null then None else Some(cs.State())
  }

  /**
   * `ProgIterator::generate_constraints`, in place: `cs == null` is
   * `ConstraintSystemRef::None`.
   */
  method GenerateConstraints(p: Program, cs: ConstraintSystem?, w: Option<Witness>) returns (r: Outcome<()>)
    modifies cs
    ensures var spec := Synthesize(p, old(StateOf(cs)), w);
      && r.Ok? == spec.Ok?
      && (spec.Ok? ==> cs != null && cs.State() == spec.value.cs)
      && (!spec.Ok? ==> r == spec.Cast())
  {
    if cs == null {
      return Err(MissingCS);
    }
    var s := new Synthesizer(cs, w);
    ghost var start := s.Snapshot();
    assert Synthesize(p, old(StateOf(cs)), w) ==
      (var a := Arguments(start, p.arguments); if !a.Ok? then a.Cast() else Statements(a.value, p.statements));
    var i := 0;
    while i < |p.arguments|
      invariant 0 <= i <= |p.arguments|
      invariant s.cs == cs
      invariant Arguments(start, p.arguments) == Arguments(s.Snapshot(), p.arguments[i..])
    {
      assert p.arguments[i..][1..] == p.arguments[i + 1..];
      var d := s.AddArgument(p.arguments[i]);
      if !d.Ok? {
        return d.Cast();
      }
      i := i + 1;
    }
    var j := 0;
    while j < |p.statements|
      invariant 0 <= j <= |p.statements|
      invariant s.cs == cs
      invariant Synthesize(p, old(StateOf(cs)), w) == Statements(s.Snapshot(), p.statements[j..])
    {
      assert p.statements[j..][1..] == p.statements[j + 1..];
      var d := s.Emit(p.statements[j]);
      if !d.Ok? {
        return d.Cast();
      }
      j := j + 1;
    }
    return Ok(());
  }
}
