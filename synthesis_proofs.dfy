/**
 * What one synthesis pass guarantees: memoisation, visibility, consumption
 * of the witness, success exactly when every referenced value is present,
 * one backend constraint per `Constraint` statement in program order, the
 * emitted constraints meaning what the circuit's constraints mean, and a
 * setup pass that never reads the witness.
 */
module SynthesisProofs {
  import opened Wrappers
  import opened R1cs
  import opened Ir
  import opened Synthesis

  // ----- the shape of what ark_combination builds -----

  /** Every variable of `l` has a handle in `S`. */
  predicate Covers(S: map<FlatVariable, Variable>, l: CanonicalLinComb) {
    forall i | 0 <= i < |l| :: l[i].0 in S
  }

  /** The backend combination for `l` under the table `S`: each coefficient with its variable's handle. */
  function Image(l: CanonicalLinComb, S: map<FlatVariable, Variable>): (lc: LinearCombination)
    requires Covers(S, l)
    ensures |lc| == |l|
  {
    if l == [] then [] else [(l[0].1, S[l[0].0])] + Image(l[1..], S)
  }

  predicate CoversStatement(S: map<FlatVariable, Variable>, q: Statement)
    requires q.Constraint?
  {
    Covers(S, q.left) && Covers(S, q.right) && Covers(S, q.lin)
  }

  predicate CoversAll(S: map<FlatVariable, Variable>, qs: seq<Statement>) {
    forall j | 0 <= j < |qs| :: qs[j].Constraint? && CoversStatement(S, qs[j])
  }

  /** The backend constraint for the circuit constraint `q`. */
  function Lower(q: Statement, S: map<FlatVariable, Variable>): Enforced
    requires q.Constraint? && CoversStatement(S, q)
  {
    Enforced(Image(q.left, S), Image(q.right, S), Image(q.lin, S))
  }

  function LowerAll(qs: seq<Statement>, S: map<FlatVariable, Variable>): (es: seq<Enforced>)
    requires CoversAll(S, qs)
    ensures |es| == |qs|
  {
    if qs == [] then [] else [Lower(qs[0], S)] + LowerAll(qs[1..], S)
  }

  /** `d` keeps every handle of `c`, the mode, and every constraint of `c` as a prefix. */
  ghost predicate Extends(c: Ctx, d: Ctx) {
    && (forall k | k in c.symbols :: k in d.symbols && d.symbols[k] == c.symbols[k])
    && d.cs.setupMode == c.cs.setupMode
    && c.cs.constraints <= d.cs.constraints
  }

  /** The variables whose value can still be produced: already allocated, or still in the witness. */
  function Available(c: Ctx): set<FlatVariable> {
    c.symbols.Keys + c.remaining.Keys
  }

  // ----- the invariant of a synthesis pass -----

  /** The visibility the circuit assigns to `k`: the last argument declaring it, else `is_output`. */
  function Public(args: seq<Parameter>, k: FlatVariable): bool {
    if args == [] then k.IsOutput()
    else if args[|args| - 1].id == k then !args[|args| - 1].private
    else Public(args[..|args| - 1], k)
  }

  ghost predicate Bounded(s: CsState, v: Variable) {
    match v
    case One => false
    case Instance(i) => 1 <= i < s.numInstance
    case Witness(i) => i < s.numWitness
  }

  /**
   * The constant maps to the backend one; every other handle was allocated
   * (its index is below the counter) and no two variables share a handle.
   */
  ghost predicate HandlesWellFormed(c: Ctx) {
    && FlatVariable.One() in c.symbols && c.symbols[FlatVariable.One()] == One
    && 1 <= c.cs.numInstance
    && (forall k | k in c.symbols && k != FlatVariable.One() :: Bounded(c.cs, c.symbols[k]))
    && (forall k1, k2 | k1 in c.symbols && k2 in c.symbols && k1 != k2 :: c.symbols[k1] != c.symbols[k2])
    && (!c.cs.setupMode ==>
          |c.cs.instanceAssignment| == c.cs.numInstance && |c.cs.witnessAssignment| == c.cs.numWitness)
  }

  /**
   * Outside setup mode: exactly the allocated variables have been removed
   * from the original witness `w0`, one backend variable exists per table
   * entry, and each handle carries its variable's witness value. In setup
   * mode the witness is untouched.
   */
  ghost predicate Consumed(c: Ctx, w0: Witness) {
    if c.cs.setupMode then c.remaining == w0
    else
      && c.remaining == w0 - (c.symbols.Keys - {FlatVariable.One()})
      && c.cs.numInstance + c.cs.numWitness == |c.symbols|
      && (forall k | k in c.symbols && k != FlatVariable.One() :: k in w0 && Val(c.cs, c.symbols[k]) == Some(w0[k]))
  }

  /** Every handle's visibility is the one the circuit assigns to its variable. */
  ghost predicate Visible(c: Ctx, args: seq<Parameter>) {
    forall k | k in c.symbols && k != FlatVariable.One() :: c.symbols[k].Instance? == Public(args, k)
  }

  ghost predicate Inv(c: Ctx, w0: Witness, args: seq<Parameter>) {
    HandlesWellFormed(c) && Consumed(c, w0) && Visible(c, args) && ArgumentIds(args) <= c.symbols.Keys
  }

  // ----- small facts about the helper definitions -----

  lemma KeysCons(l: CanonicalLinComb)
    requires l != []
    ensures Keys(l) == {l[0].0} + Keys(l[1..])
  {
    forall k | k in Keys(l) ensures k in {l[0].0} + Keys(l[1..]) {
      var i :| 0 <= i < |l| && l[i].0 == k;
      if i > 0 {
        assert l[1..][i - 1].0 == k;
      }
    }
    forall k | k in Keys(l[1..]) ensures k in Keys(l) {
      var i :| 0 <= i < |l[1..]| && l[1..][i].0 == k;
      assert l[i + 1].0 == k;
    }
  }

  lemma CoversKeys(S: map<FlatVariable, Variable>, l: CanonicalLinComb)
    ensures Covers(S, l) <==> Keys(l) <= S.Keys
  {
    if Keys(l) <= S.Keys {
      forall i | 0 <= i < |l| ensures l[i].0 in S {
        assert l[i].0 in Keys(l);
      }
    }
  }

  lemma {:induction false} ImageExtends(l: CanonicalLinComb, S: map<FlatVariable, Variable>, T: map<FlatVariable, Variable>)
    requires Covers(S, l)
    requires forall k | k in S :: k in T && T[k] == S[k]
    ensures Covers(T, l) && Image(l, S) == Image(l, T)
    decreases |l|
  {
    if l != [] {
      ImageExtends(l[1..], S, T);
    }
  }

  lemma {:induction false} PublicOfUndeclared(args: seq<Parameter>, k: FlatVariable)
    requires k !in ArgumentIds(args)
    ensures Public(args, k) == k.IsOutput()
    decreases |args|
  {
    if args != [] {
      var init := args[..|args| - 1];
      assert ArgumentIds(init) <= ArgumentIds(args) by {
        forall x | x in ArgumentIds(init) ensures x in ArgumentIds(args) {
          var i :| 0 <= i < |init| && init[i].id == x;
          assert args[i].id == x;
        }
      }
      assert args[|args| - 1].id in ArgumentIds(args);
      PublicOfUndeclared(init, k);
    }
  }

  lemma PublicSnoc(done: seq<Parameter>, p: Parameter, k: FlatVariable)
    ensures Public(done + [p], k) == if p.id == k then !p.private else Public(done, k)
  {
    assert (done + [p])[..|done|] == done;
  }

  lemma ArgumentIdsSnoc(done: seq<Parameter>, p: Parameter)
    ensures ArgumentIds(done + [p]) == ArgumentIds(done) + {p.id}
  {
    var ds := done + [p];
    forall x | x in ArgumentIds(ds) ensures x in ArgumentIds(done) + {p.id} {
      var i :| 0 <= i < |ds| && ds[i].id == x;
      if i < |done| {
        assert done[i].id == x;
      }
    }
    forall x | x in ArgumentIds(done) ensures x in ArgumentIds(ds) {
      var i :| 0 <= i < |done| && done[i].id == x;
      assert ds[i].id == x;
    }
    assert ds[|done|].id == p.id;
  }

  lemma ArgumentIdsCons(args: seq<Parameter>)
    requires args != []
    ensures ArgumentIds(args) == {args[0].id} + ArgumentIds(args[1..])
  {
    forall x | x in ArgumentIds(args) ensures x in {args[0].id} + ArgumentIds(args[1..]) {
      var i :| 0 <= i < |args| && args[i].id == x;
      if i > 0 {
        assert args[1..][i - 1].id == x;
      }
    }
    forall x | x in ArgumentIds(args[1..]) ensures x in ArgumentIds(args) {
      var i :| 0 <= i < |args[1..]| && args[1..][i].id == x;
      assert args[i + 1].id == x;
    }
  }

  lemma DistinctCons(args: seq<Parameter>)
    requires args != []
    ensures DistinctArguments(args) <==> DistinctArguments(args[1..]) && args[0].id !in ArgumentIds(args[1..])
  {
    var rest := args[1..];
    if DistinctArguments(args) {
      forall i, j | 0 <= i < j < |rest| ensures rest[i].id != rest[j].id {
        assert rest[i] == args[i + 1] && rest[j] == args[j + 1];
      }
      forall i | 0 <= i < |rest| ensures rest[i].id != args[0].id {
        assert rest[i] == args[i + 1];
      }
    }
    if DistinctArguments(rest) && args[0].id !in ArgumentIds(rest) {
      forall i, j | 0 <= i < j < |args| ensures args[i].id != args[j].id {
        if i == 0 {
          assert rest[j - 1].id == args[j].id;
        } else {
          assert rest[i - 1] == args[i] && rest[j - 1] == args[j];
        }
      }
    }
  }

  // ----- the allocator -----

  /**
   * Memoisation: asking for the same variable a second time gives the same
   * handle and changes nothing more.
   */
  lemma EntryReusesHandle(c: Ctx, k: FlatVariable)
    requires Entry(c, k).Ok?
    ensures var e := Entry(c, k).value;
      Entry(e.ctx, k) == Ok(e)
  {
  }

  /**
   * First use of a variable: an output becomes the next instance variable,
   * anything else the next witness variable; outside setup mode exactly the
   * entry of `k` is removed from the witness, and a missing entry panics.
   */
  lemma EntryFirstUse(c: Ctx, k: FlatVariable)
    requires k !in c.symbols
    ensures Entry(c, k).Ok? <==> c.cs.setupMode || k in c.remaining
    ensures !Entry(c, k).Ok? ==> Entry(c, k) == Panic(AssignmentMissing)
    ensures Entry(c, k).Ok? ==>
      var a := Entry(c, k).value;
      && a.handle == (if k.IsOutput() then Instance(c.cs.numInstance) else Witness(c.cs.numWitness))
      && a.ctx.symbols == c.symbols[k := a.handle]
      && a.ctx.remaining == (if c.cs.setupMode then c.remaining else c.remaining - {k})
      && a.ctx.cs.numInstance == c.cs.numInstance + (if k.IsOutput() then 1 else 0)
      && a.ctx.cs.numWitness == c.cs.numWitness + (if k.IsOutput() then 0 else 1)
      && a.ctx.cs.constraints == c.cs.constraints
      && a.ctx.cs.setupMode == c.cs.setupMode
  {
  }

  /** Allocation appends: every earlier handle keeps its value, and the new handle carries the consumed entry. */
  lemma AllocValues(c: Ctx, k: FlatVariable, public: bool)
    requires HandlesWellFormed(c)
    requires Alloc(c, k, public).Ok?
    ensures var a := Alloc(c, k, public).value;
      && a.ctx.cs.setupMode == c.cs.setupMode && a.ctx.cs.constraints == c.cs.constraints
      && !Bounded(c.cs, a.handle) && Bounded(a.ctx.cs, a.handle) && a.handle.Instance? == public
      && (forall v | Bounded(c.cs, v) :: Bounded(a.ctx.cs, v) && Val(a.ctx.cs, v) == Val(c.cs, v))
      && a.ctx.cs.numInstance + a.ctx.cs.numWitness == c.cs.numInstance + c.cs.numWitness + 1
      && (!c.cs.setupMode ==>
            && |a.ctx.cs.instanceAssignment| == a.ctx.cs.numInstance
            && |a.ctx.cs.witnessAssignment| == a.ctx.cs.numWitness
            && Val(a.ctx.cs, a.handle) == Some(c.remaining[k]))
  {
  }

  /** What one table lookup does to the state, in either mode. */
  lemma EntryResult(c: Ctx, k: FlatVariable)
    ensures Entry(c, k).Ok? <==> c.cs.setupMode || k in Available(c)
    ensures Entry(c, k).Ok? ==>
      var e := Entry(c, k).value;
      && Extends(c, e.ctx) && e.ctx.cs.constraints == c.cs.constraints
      && e.ctx.symbols.Keys == c.symbols.Keys + {k} && e.ctx.symbols[k] == e.handle
      && (c.cs.setupMode ==> e.ctx.remaining == c.remaining)
      && (!c.cs.setupMode ==> Available(e.ctx) == Available(c))
  {
  }

  /**
   * Inserting a freshly allocated handle for `k` (absent from the table
   * outside setup mode; possibly overwritten in setup mode) keeps the
   * handles well formed and the witness consumption exact.
   */
  lemma InsertKeepsHandles(c: Ctx, k: FlatVariable, public: bool, w0: Witness)
    requires HandlesWellFormed(c) && Consumed(c, w0)
    requires k != FlatVariable.One()
    requires Alloc(c, k, public).Ok?
    requires !c.cs.setupMode ==> k !in c.symbols
    ensures var a := Alloc(c, k, public).value;
      var d := a.ctx.(symbols := a.ctx.symbols[k := a.handle]);
      HandlesWellFormed(d) && Consumed(d, w0)
  {
    var a := Alloc(c, k, public).value;
    AllocValues(c, k, public);
    var d := a.ctx.(symbols := a.ctx.symbols[k := a.handle]);
    var one := FlatVariable.One();
    assert d.symbols == c.symbols[k := a.handle];
    forall k1, k2 | k1 in d.symbols && k2 in d.symbols && k1 != k2
      ensures d.symbols[k1] != d.symbols[k2]
    {
      if k1 == k {
        assert k2 == one || Bounded(c.cs, c.symbols[k2]);
      } else if k2 == k {
        assert k1 == one || Bounded(c.cs, c.symbols[k1]);
      }
    }
    assert HandlesWellFormed(d);
    if !c.cs.setupMode {
      assert d.symbols.Keys == c.symbols.Keys + {k};
      assert d.remaining == w0 - (d.symbols.Keys - {one});
      assert |d.symbols| == |c.symbols| + 1;
    }
  }

  lemma EntryKeepsInvariant(c: Ctx, k: FlatVariable, w0: Witness, args: seq<Parameter>)
    requires Inv(c, w0, args)
    requires Entry(c, k).Ok?
    ensures Inv(Entry(c, k).value.ctx, w0, args)
  {
    if k !in c.symbols {
      InsertKeepsHandles(c, k, k.IsOutput(), w0);
      AllocValues(c, k, k.IsOutput());
      PublicOfUndeclared(args, k);
    }
  }

  // ----- ark_combination -----

  /** A combination whose variables are all in the table allocates nothing and leaves the witness unchanged. */
  lemma {:induction false} CombinationMemoized(c: Ctx, l: CanonicalLinComb, acc: LinearCombination)
    requires Covers(c.symbols, l)
    ensures Combination(c, l, acc) == Ok(Combined(c, acc + Image(l, c.symbols)))
    decreases |l|
  {
    if l != [] {
      var term := (l[0].1, c.symbols[l[0].0]);
      assert Covers(c.symbols, l[1..]) by {
        forall i | 0 <= i < |l[1..]| ensures l[1..][i].0 in c.symbols {
          assert l[1..][i] == l[i + 1];
        }
      }
      CombinationMemoized(c, l[1..], acc + [term]);
      assert acc + [term] + Image(l[1..], c.symbols) == acc + Image(l, c.symbols);
    } else {
      assert acc + [] == acc;
    }
  }

  /**
   * A successful `ark_combination` pairs every coefficient with the handle
   * its variable has in the final table, adds exactly the variables of `l`
   * to the table, emits no constraint, and outside setup mode only moves
   * variables from the witness to the table.
   */
  lemma {:induction false} CombinationResult(c: Ctx, l: CanonicalLinComb, acc: LinearCombination)
    requires Combination(c, l, acc).Ok?
    ensures var d := Combination(c, l, acc).value;
      && Extends(c, d.ctx) && d.ctx.cs.constraints == c.cs.constraints
      && d.ctx.symbols.Keys == c.symbols.Keys + Keys(l)
      && Covers(d.ctx.symbols, l)
      && d.lc == acc + Image(l, d.ctx.symbols)
      && (c.cs.setupMode ==> d.ctx.remaining == c.remaining)
      && (!c.cs.setupMode ==> Available(d.ctx) == Available(c))
    decreases |l|
  {
    if l != [] {
      EntryResult(c, l[0].0);
      var e := Entry(c, l[0].0).value;
      var acc' := acc + [(l[0].1, e.handle)];
      CombinationResult(e.ctx, l[1..], acc');
      KeysCons(l);
      var d := Combination(c, l, acc).value;
      assert d == Combination(e.ctx, l[1..], acc').value;
      assert d.ctx.symbols[l[0].0] == e.handle;
      assert Image(l, d.ctx.symbols) == [(l[0].1, d.ctx.symbols[l[0].0])] + Image(l[1..], d.ctx.symbols);
    }
  }

  /**
   * `ark_combination` succeeds exactly when every variable of `l` is in the
   * table or still in the witness; in setup mode it always succeeds.
   */
  lemma {:induction false} CombinationSucceedsIff(c: Ctx, l: CanonicalLinComb, acc: LinearCombination)
    ensures Combination(c, l, acc).Ok? <==> c.cs.setupMode || Keys(l) <= Available(c)
    decreases |l|
  {
    if l != [] {
      KeysCons(l);
      EntryResult(c, l[0].0);
      var e := Entry(c, l[0].0);
      if e.Ok? {
        CombinationSucceedsIff(e.value.ctx, l[1..], acc + [(l[0].1, e.value.handle)]);
      }
    }
  }

  lemma {:induction false} CombinationKeepsInvariant(c: Ctx, l: CanonicalLinComb, acc: LinearCombination, w0: Witness, args: seq<Parameter>)
    requires Inv(c, w0, args)
    requires Combination(c, l, acc).Ok?
    ensures Inv(Combination(c, l, acc).value.ctx, w0, args)
    decreases |l|
  {
    if l != [] {
      EntryKeepsInvariant(c, l[0].0, w0, args);
      var e := Entry(c, l[0].0).value;
      CombinationKeepsInvariant(e.ctx, l[1..], acc + [(l[0].1, e.handle)], w0, args);
    }
  }

  // ----- the arguments -----

  lemma ArgumentKeepsInvariant(c: Ctx, p: Parameter, w0: Witness, done: seq<Parameter>)
    requires Inv(c, w0, done)
    requires p.id != FlatVariable.One()
    requires Argument(c, p).Ok?
    ensures Inv(Argument(c, p).value, w0, done + [p])
  {
    InsertKeepsHandles(c, p.id, !p.private, w0);
    AllocValues(c, p.id, !p.private);
    var d := Argument(c, p).value;
    forall k | k in d.symbols && k != FlatVariable.One()
      ensures d.symbols[k].Instance? == Public(done + [p], k)
    {
      PublicSnoc(done, p, k);
    }
    ArgumentIdsSnoc(done, p);
  }

  lemma {:induction false} ArgumentsKeepInvariant(c: Ctx, args: seq<Parameter>, w0: Witness, done: seq<Parameter>)
    requires Inv(c, w0, done)
    requires forall i | 0 <= i < |args| :: args[i].id != FlatVariable.One()
    requires Arguments(c, args).Ok?
    ensures Inv(Arguments(c, args).value, w0, done + args)
    decreases |args|
  {
    if args == [] {
      assert done + args == done;
    } else {
      ArgumentKeepsInvariant(c, args[0], w0, done);
      assert (done + [args[0]]) + args[1..] == done + args;
      ArgumentsKeepInvariant(Argument(c, args[0]).value, args[1..], w0, done + [args[0]]);
    }
  }

  /**
   * The arguments add exactly their ids to the table and emit no constraint;
   * outside setup mode they remove exactly their ids from the witness.
   */
  lemma {:induction false} ArgumentsResult(c: Ctx, args: seq<Parameter>)
    requires Arguments(c, args).Ok?
    ensures var d := Arguments(c, args).value;
      && d.cs.setupMode == c.cs.setupMode && d.cs.constraints == c.cs.constraints
      && d.symbols.Keys == c.symbols.Keys + ArgumentIds(args)
      && d.remaining == if c.cs.setupMode then c.remaining else c.remaining - ArgumentIds(args)
    decreases |args|
  {
    if args != [] {
      ArgumentIdsCons(args);
      ArgumentsResult(Argument(c, args[0]).value, args[1..]);
    }
  }

  /**
   * Outside setup mode the arguments are allocated exactly when no id is
   * declared twice and every id has a witness entry; in setup mode always.
   */
  lemma {:induction false} ArgumentsSucceedIff(c: Ctx, args: seq<Parameter>)
    ensures Arguments(c, args).Ok? <==>
      c.cs.setupMode || (DistinctArguments(args) && ArgumentIds(args) <= c.remaining.Keys)
    decreases |args|
  {
    if args != [] {
      ArgumentIdsCons(args);
      DistinctCons(args);
      var d := Argument(c, args[0]);
      if d.Ok? {
        ArgumentsSucceedIff(d.value, args[1..]);
      }
    }
  }

  // ----- the statements -----

  lemma ExtendsTrans(c: Ctx, d: Ctx, e: Ctx)
    requires Extends(c, d) && Extends(d, e)
    ensures Extends(c, e)
  {
  }

  /**
   * A successful statement step gains exactly the statement's variables in
   * the table, changes no handle, and outside setup mode only moves
   * variables from the witness to the table.
   */
  /** `d` extends `c`, has gained exactly the variables `K`, and has only moved values from the witness to the table. */
  ghost predicate Grows(c: Ctx, d: Ctx, K: set<FlatVariable>) {
    && Extends(c, d)
    && d.symbols.Keys == c.symbols.Keys + K
    && (c.cs.setupMode ==> d.remaining == c.remaining)
    && (!c.cs.setupMode ==> Available(d) == Available(c))
  }

  lemma GrowsTrans(c: Ctx, d: Ctx, e: Ctx, K1: set<FlatVariable>, K2: set<FlatVariable>)
    requires Grows(c, d, K1) && Grows(d, e, K2)
    ensures Grows(c, e, K1 + K2)
  {
    ExtendsTrans(c, d, e);
  }

  lemma CombinationGrows(c: Ctx, l: CanonicalLinComb)
    requires Combination(c, l, []).Ok?
    ensures Grows(c, Combination(c, l, []).value.ctx, Keys(l))
  {
    CombinationResult(c, l, []);
  }

  lemma StepTable(c: Ctx, s: Statement)
    requires Step(c, s).Ok?
    ensures var d := Step(c, s).value;
      && Extends(c, d)
      && d.symbols.Keys == c.symbols.Keys + KeysOf(s)
      && (c.cs.setupMode ==> d.remaining == c.remaining)
      && (!c.cs.setupMode ==> Available(d) == Available(c))
  {
    if s.Constraint? {
      var a := Combination(c, s.left, []).value;
      CombinationGrows(c, s.left);
      var b := Combination(a.ctx, s.right, []).value;
      CombinationGrows(a.ctx, s.right);
      var o := Combination(b.ctx, s.lin, []).value;
      CombinationGrows(b.ctx, s.lin);
      GrowsTrans(c, a.ctx, b.ctx, Keys(s.left), Keys(s.right));
      GrowsTrans(c, b.ctx, o.ctx, Keys(s.left) + Keys(s.right), Keys(s.lin));
      var d := Step(c, s).value;
      assert d == o.ctx.(cs := Enforce(o.ctx.cs, a.lc, b.lc, o.lc));
      assert Grows(o.ctx, d, {});
      GrowsTrans(c, o.ctx, d, KeysOf(s), {});
      assert KeysOf(s) + {} == KeysOf(s);
    }
  }

  /** A `Constraint` step appends exactly one backend constraint, built from the handles its variables have afterwards. */
  lemma StepEmits(c: Ctx, s: Statement)
    requires Step(c, s).Ok? && s.Constraint?
    ensures var d := Step(c, s).value;
      CoversStatement(d.symbols, s) && d.cs.constraints == c.cs.constraints + [Lower(s, d.symbols)]
  {
    var a := Combination(c, s.left, []).value;
    CombinationResult(c, s.left, []);
    var b := Combination(a.ctx, s.right, []).value;
    CombinationResult(a.ctx, s.right, []);
    var o := Combination(b.ctx, s.lin, []).value;
    CombinationResult(b.ctx, s.lin, []);
    var d := Step(c, s).value;
    assert d.symbols == o.ctx.symbols;
    ExtendsTrans(a.ctx, b.ctx, o.ctx);
    ImageExtends(s.left, a.ctx.symbols, d.symbols);
    ImageExtends(s.right, b.ctx.symbols, d.symbols);
    assert a.lc == Image(s.left, d.symbols);
    assert b.lc == Image(s.right, d.symbols);
    assert o.lc == Image(s.lin, d.symbols);
  }

  lemma LowerAllCons(q: Statement, qs: seq<Statement>, S: map<FlatVariable, Variable>)
    requires q.Constraint? && CoversStatement(S, q) && CoversAll(S, qs)
    ensures CoversAll(S, [q] + qs)
    ensures LowerAll([q] + qs, S) == [Lower(q, S)] + LowerAll(qs, S)
  {
    assert ([q] + qs)[1..] == qs;
  }

  /**
   * A successful statement loop gains exactly the statements' variables in
   * the table, changes no handle, and outside setup mode only moves
   * variables from the witness to the table.
   */
  lemma {:induction false} StatementsTable(c: Ctx, ss: seq<Statement>)
    requires Statements(c, ss).Ok?
    ensures var d := Statements(c, ss).value;
      && Extends(c, d)
      && d.symbols.Keys == c.symbols.Keys + StatementKeys(ss)
      && (c.cs.setupMode ==> d.remaining == c.remaining)
      && (!c.cs.setupMode ==> Available(d) == Available(c))
    decreases |ss|
  {
    if ss != [] {
      StepTable(c, ss[0]);
      var c1 := Step(c, ss[0]).value;
      StatementsTable(c1, ss[1..]);
      var d := Statements(c, ss).value;
      assert d == Statements(c1, ss[1..]).value;
      ExtendsTrans(c, c1, d);
    }
  }

  /** A constraint lowered under a table is lowered the same under any table extending it. */
  lemma LowerStable(q: Statement, S: map<FlatVariable, Variable>, T: map<FlatVariable, Variable>)
    requires q.Constraint? && CoversStatement(S, q)
    requires forall k | k in S :: k in T && T[k] == S[k]
    ensures CoversStatement(T, q) && Lower(q, S) == Lower(q, T)
  {
    ImageExtends(q.left, S, T);
    ImageExtends(q.right, S, T);
    ImageExtends(q.lin, S, T);
  }

  /** The constraint of a leading `Constraint` statement comes first, lowered under any later table. */
  lemma EmitPrepends(ss: seq<Statement>, S: map<FlatVariable, Variable>, T: map<FlatVariable, Variable>,
                     before: seq<Enforced>, middle: seq<Enforced>, after: seq<Enforced>)
    requires ss != [] && ss[0].Constraint? && CoversStatement(S, ss[0])
    requires forall k | k in S :: k in T && T[k] == S[k]
    requires middle == before + [Lower(ss[0], S)]
    requires CoversAll(T, ConstraintsOf(ss[1..]))
    requires after == middle + LowerAll(ConstraintsOf(ss[1..]), T)
    ensures CoversAll(T, ConstraintsOf(ss))
    ensures after == before + LowerAll(ConstraintsOf(ss), T)
  {
    var rest := ConstraintsOf(ss[1..]);
    LowerStable(ss[0], S, T);
    assert ConstraintsOf(ss) == [ss[0]] + rest;
    LowerAllCons(ss[0], rest, T);
    assert before + [Lower(ss[0], T)] + LowerAll(rest, T) == before + LowerAll(ConstraintsOf(ss), T);
  }

  /**
   * One constraint per statement, in program order: a successful pass over
   * `ss` appends, for the `Constraint` statements of `ss` in order, exactly
   * their lowered constraints under the final table, and nothing else.
   */
  lemma {:induction false} StatementsEmit(c: Ctx, ss: seq<Statement>)
    requires Statements(c, ss).Ok?
    ensures var d := Statements(c, ss).value;
      && CoversAll(d.symbols, ConstraintsOf(ss))
      && d.cs.constraints == c.cs.constraints + LowerAll(ConstraintsOf(ss), d.symbols)
    decreases |ss|
  {
    if ss == [] {
      assert c.cs.constraints + [] == c.cs.constraints;
    } else {
      var c1 := Step(c, ss[0]).value;
      StatementsEmit(c1, ss[1..]);
      var d := Statements(c, ss).value;
      assert d == Statements(c1, ss[1..]).value;
      var rest := ConstraintsOf(ss[1..]);
      if ss[0].Constraint? {
        StatementsTable(c1, ss[1..]);
        StepEmits(c, ss[0]);
        EmitPrepends(ss, c1.symbols, d.symbols, c.cs.constraints, c1.cs.constraints, d.cs.constraints);
      } else {
        assert ConstraintsOf(ss) == rest;
      }
    }
  }

  lemma StepSucceedsIff(c: Ctx, s: Statement)
    ensures Step(c, s).Ok? <==> c.cs.setupMode || KeysOf(s) <= Available(c)
  {
    if s.Constraint? {
      CombinationSucceedsIff(c, s.left, []);
      var a := Combination(c, s.left, []);
      if a.Ok? {
        CombinationResult(c, s.left, []);
        CombinationSucceedsIff(a.value.ctx, s.right, []);
        var b := Combination(a.value.ctx, s.right, []);
        if b.Ok? {
          CombinationResult(a.value.ctx, s.right, []);
          CombinationSucceedsIff(b.value.ctx, s.lin, []);
        }
      }
    }
  }

  /**
   * Outside setup mode the statement loop succeeds exactly when every
   * variable the statements mention is in the table or still in the witness.
   */
  lemma {:induction false} StatementsSucceedIff(c: Ctx, ss: seq<Statement>)
    ensures Statements(c, ss).Ok? <==> c.cs.setupMode || StatementKeys(ss) <= Available(c)
    decreases |ss|
  {
    if ss != [] {
      StepSucceedsIff(c, ss[0]);
      var d := Step(c, ss[0]);
      if d.Ok? {
        StepTable(c, ss[0]);
        StatementsSucceedIff(d.value, ss[1..]);
      }
    }
  }

  lemma StepKeepsInvariant(c: Ctx, s: Statement, w0: Witness, args: seq<Parameter>)
    requires Inv(c, w0, args)
    requires Step(c, s).Ok?
    ensures Inv(Step(c, s).value, w0, args)
  {
    if s.Constraint? {
      CombinationKeepsInvariant(c, s.left, [], w0, args);
      var a := Combination(c, s.left, []).value;
      CombinationKeepsInvariant(a.ctx, s.right, [], w0, args);
      var b := Combination(a.ctx, s.right, []).value;
      CombinationKeepsInvariant(b.ctx, s.lin, [], w0, args);
    }
  }

  lemma {:induction false} StatementsKeepInvariant(c: Ctx, ss: seq<Statement>, w0: Witness, args: seq<Parameter>)
    requires Inv(c, w0, args)
    requires Statements(c, ss).Ok?
    ensures Inv(Statements(c, ss).value, w0, args)
    decreases |ss|
  {
    if ss != [] {
      StepKeepsInvariant(c, ss[0], w0, args);
      StatementsKeepInvariant(Step(c, ss[0]).value, ss[1..], w0, args);
    }
  }

  // ----- what the emitted constraints mean -----

  /**
   * Under the final assignment of a proving pass, the backend combination
   * built for `l` has exactly the value `l` has under the original witness.
   */
  lemma {:induction false} ImageEval(l: CanonicalLinComb, c: Ctx, w0: Witness)
    requires HandlesWellFormed(c) && Consumed(c, w0) && !c.cs.setupMode
    requires Covers(c.symbols, l)
    ensures Assigned(w0, l) && Defined(c.cs, Image(l, c.symbols))
    ensures Eval(c.cs, Image(l, c.symbols)) == EvalIr(w0, l)
    decreases |l|
  {
    if l != [] {
      var rest := l[1..];
      assert Covers(c.symbols, rest) by {
        forall i | 0 <= i < |rest| ensures rest[i].0 in c.symbols {
          assert rest[i] == l[i + 1];
        }
      }
      ImageEval(rest, c, w0);
      var k := l[0].0;
      var img := Image(l, c.symbols);
      assert img == [(l[0].1, c.symbols[k])] + Image(rest, c.symbols);
      assert img[1..] == Image(rest, c.symbols);
      assert Val(c.cs, c.symbols[k]) == Value(w0, k);
      forall i | 0 <= i < |img| ensures Val(c.cs, img[i].1).Some? {
        if i > 0 {
          assert img[i] == Image(rest, c.symbols)[i - 1];
        }
      }
      forall i | 0 <= i < |l| ensures Value(w0, l[i].0).Some? {
        if i > 0 {
          assert l[i] == rest[i - 1];
        }
      }
    }
  }

  lemma ConstraintEval(q: Statement, c: Ctx, w0: Witness)
    requires HandlesWellFormed(c) && Consumed(c, w0) && !c.cs.setupMode
    requires q.Constraint? && CoversStatement(c.symbols, q)
    ensures Holds(c.cs, Lower(q, c.symbols)) <==> HoldsIr(w0, q)
  {
    ImageEval(q.left, c, w0);
    ImageEval(q.right, c, w0);
    ImageEval(q.lin, c, w0);
  }

  // ----- one whole pass -----

  lemma SeedInvariant(setupMode: bool, w: Option<Witness>)
    ensures Inv(Seed(Fresh(setupMode), w), w.GetOr(map[]), [])
  {
    var c := Seed(Fresh(setupMode), w);
    assert c.symbols.Keys == {FlatVariable.One()};
    assert ArgumentIds([]) == {};
  }

  /** Any mode: exactly one backend constraint per `Constraint` statement, in program order, and nothing else. */
  lemma SynthesisEmitsOneConstraintPerStatement(p: Program, s0: CsState, w: Option<Witness>)
    requires Synthesize(p, Some(s0), w).Ok?
    ensures var c := Synthesize(p, Some(s0), w).value;
      && CoversAll(c.symbols, ConstraintsOf(p.statements))
      && c.cs.constraints == s0.constraints + LowerAll(ConstraintsOf(p.statements), c.symbols)
  {
    ArgumentsResult(Seed(s0, w), p.arguments);
    StatementsEmit(Arguments(Seed(s0, w), p.arguments).value, p.statements);
  }

  /** The invariant holds at the end of a successful pass over a fresh constraint system. */
  lemma SynthesisInvariant(p: Program, setupMode: bool, w: Option<Witness>)
    requires WellFormed(p)
    requires Synthesize(p, Some(Fresh(setupMode)), w).Ok?
    ensures Inv(Synthesize(p, Some(Fresh(setupMode)), w).value, w.GetOr(map[]), p.arguments)
  {
    var c0 := Seed(Fresh(setupMode), w);
    SeedInvariant(setupMode, w);
    ArgumentsKeepInvariant(c0, p.arguments, w.GetOr(map[]), []);
    var a := Arguments(c0, p.arguments).value;
    assert [] + p.arguments == p.arguments;
    StatementsKeepInvariant(a, p.statements, w.GetOr(map[]), p.arguments);
  }

  /** A successful pass allocates exactly the constant and the referenced variables, and keeps the mode. */
  lemma SynthesisTable(p: Program, s0: CsState, w: Option<Witness>)
    requires Synthesize(p, Some(s0), w).Ok?
    ensures Synthesize(p, Some(s0), w).value.symbols.Keys == {FlatVariable.One()} + Referenced(p)
    ensures Synthesize(p, Some(s0), w).value.cs.setupMode == s0.setupMode
  {
    var c0 := Seed(s0, w);
    ArgumentsResult(c0, p.arguments);
    StatementsTable(Arguments(c0, p.arguments).value, p.statements);
  }

  /**
   * A successful proving pass allocates every referenced variable exactly
   * once: the table holds exactly the constant and the referenced variables,
   * the constant maps to the backend one, no two variables share a handle,
   * there is one backend variable per table entry, every visibility follows
   * the circuit, every referenced entry has been removed from the witness
   * exactly once, and every handle carries its variable's witness value.
   */
  lemma ProveModeAllocation(p: Program, w0: Witness)
    requires WellFormed(p)
    requires Synthesize(p, Some(Fresh(false)), Some(w0)).Ok?
    ensures var c := Synthesize(p, Some(Fresh(false)), Some(w0)).value;
      && c.symbols.Keys == {FlatVariable.One()} + Referenced(p)
      && HandlesWellFormed(c)
      && Visible(c, p.arguments)
      && c.remaining == w0 - (Referenced(p) - {FlatVariable.One()})
      && c.cs.numInstance + c.cs.numWitness == |c.symbols|
      && (forall k | k in c.symbols && k != FlatVariable.One() :: k in w0 && Val(c.cs, c.symbols[k]) == Some(w0[k]))
  {
    SynthesisInvariant(p, false, Some(w0));
    SynthesisTable(p, Fresh(false), Some(w0));
    var c := Synthesize(p, Some(Fresh(false)), Some(w0)).value;
    var one := FlatVariable.One();
    assert Consumed(c, w0);
    assert c.remaining == w0 - (c.symbols.Keys - {one});
    assert c.symbols.Keys - {one} == Referenced(p) - {one};
  }

  /**
   * Setup mode never fails and never touches the witness; the table and the
   * handles are shaped exactly as in a proving pass.
   */
  lemma SetupModeAllocation(p: Program, w: Option<Witness>)
    requires WellFormed(p)
    ensures Synthesize(p, Some(Fresh(true)), w).Ok?
    ensures var c := Synthesize(p, Some(Fresh(true)), w).value;
      && c.symbols.Keys == {FlatVariable.One()} + Referenced(p)
      && HandlesWellFormed(c)
      && Visible(c, p.arguments)
      && c.remaining == w.GetOr(map[])
  {
    var c0 := Seed(Fresh(true), w);
    ArgumentsSucceedIff(c0, p.arguments);
    StatementsSucceedIff(Arguments(c0, p.arguments).value, p.statements);
    ArgumentsResult(c0, p.arguments);
    SynthesisInvariant(p, true, w);
    SynthesisTable(p, Fresh(true), w);
  }

  /**
   * A proving pass succeeds exactly when no argument is declared twice and
   * every referenced variable other than the constant has a witness entry;
   * otherwise it panics with `AssignmentMissing`.
   */
  lemma ProveModeSucceedsIff(p: Program, s0: CsState, w0: Witness)
    requires WellFormed(p) && !s0.setupMode
    ensures Synthesize(p, Some(s0), Some(w0)).Ok? <==>
      DistinctArguments(p.arguments) && Referenced(p) - {FlatVariable.One()} <= w0.Keys
    ensures !Synthesize(p, Some(s0), Some(w0)).Ok? ==> Synthesize(p, Some(s0), Some(w0)) == Panic(AssignmentMissing)
  {
    var one := FlatVariable.One();
    var c0 := Seed(s0, Some(w0));
    var ids := ArgumentIds(p.arguments);
    assert one !in ids;
    ArgumentsSucceedIff(c0, p.arguments);
    var a := Arguments(c0, p.arguments);
    if a.Ok? {
      ArgumentsResult(c0, p.arguments);
      StatementsSucceedIff(a.value, p.statements);
      assert Available(a.value) == {one} + w0.Keys;
    }
  }

  /**
   * Soundness of the translation: after a successful proving pass, the
   * backend constraints are those of the circuit, in order, and each holds
   * under the backend assignment exactly when the circuit constraint holds
   * under the witness.
   */
  lemma ProveModeSound(p: Program, w0: Witness)
    requires WellFormed(p)
    requires Synthesize(p, Some(Fresh(false)), Some(w0)).Ok?
    ensures var c := Synthesize(p, Some(Fresh(false)), Some(w0)).value;
      var qs := ConstraintsOf(p.statements);
      && |c.cs.constraints| == |qs|
      && forall j | 0 <= j < |qs| :: Holds(c.cs, c.cs.constraints[j]) <==> HoldsIr(w0, qs[j])
  {
    var c := Synthesize(p, Some(Fresh(false)), Some(w0)).value;
    var qs := ConstraintsOf(p.statements);
    SynthesisEmitsOneConstraintPerStatement(p, Fresh(false), Some(w0));
    SynthesisInvariant(p, false, Some(w0));
    SynthesisTable(p, Fresh(false), Some(w0));
    assert c.cs.constraints == LowerAll(qs, c.symbols);
    forall j | 0 <= j < |qs| ensures Holds(c.cs, c.cs.constraints[j]) <==> HoldsIr(w0, qs[j]) {
      LowerAllAt(qs, c.symbols, j);
      ConstraintEval(qs[j], c, w0);
    }
  }

  lemma {:induction false} LowerAllAt(qs: seq<Statement>, S: map<FlatVariable, Variable>, j: nat)
    requires CoversAll(S, qs) && j < |qs|
    ensures LowerAll(qs, S)[j] == Lower(qs[j], S)
    decreases j
  {
    if j > 0 {
      assert CoversAll(S, qs[1..]) by {
        forall i | 0 <= i < |qs[1..]| ensures qs[1..][i].Constraint? && CoversStatement(S, qs[1..][i]) {
          assert qs[1..][i] == qs[i + 1];
        }
      }
      LowerAllAt(qs[1..], S, j - 1);
    }
  }

  // ----- setup mode does not depend on the witness -----

  /** In setup mode `ark_combination` succeeds, keeps the witness, and computes the same with any other witness. */
  lemma {:induction false} CombinationIgnoresWitness(c: Ctx, l: CanonicalLinComb, acc: LinearCombination, w: Witness)
    requires c.cs.setupMode
    ensures Combination(c, l, acc).Ok?
    ensures var d := Combination(c, l, acc).value;
      && d.ctx.remaining == c.remaining && d.ctx.cs.setupMode
      && Combination(c.(remaining := w), l, acc) == Ok(d.(ctx := d.ctx.(remaining := w)))
    decreases |l|
  {
    if l != [] {
      var e := Entry(c, l[0].0);
      assert e.Ok? && e.value.ctx.remaining == c.remaining && e.value.ctx.cs.setupMode;
      assert Entry(c.(remaining := w), l[0].0) == Ok(e.value.(ctx := e.value.ctx.(remaining := w)));
      CombinationIgnoresWitness(e.value.ctx, l[1..], acc + [(l[0].1, e.value.handle)], w);
    }
  }

  lemma {:induction false} ArgumentsIgnoreWitness(c: Ctx, args: seq<Parameter>, w: Witness)
    requires c.cs.setupMode
    ensures Arguments(c, args).Ok?
    ensures var d := Arguments(c, args).value;
      && d.remaining == c.remaining && d.cs.setupMode
      && Arguments(c.(remaining := w), args) == Ok(d.(remaining := w))
    decreases |args|
  {
    if args != [] {
      var d := Argument(c, args[0]);
      assert d.Ok? && d.value.remaining == c.remaining && d.value.cs.setupMode;
      assert Argument(c.(remaining := w), args[0]) == Ok(d.value.(remaining := w));
      ArgumentsIgnoreWitness(d.value, args[1..], w);
    }
  }

  lemma StepIgnoresWitness(c: Ctx, s: Statement, w: Witness)
    requires c.cs.setupMode
    ensures Step(c, s).Ok?
    ensures var d := Step(c, s).value;
      && d.remaining == c.remaining && d.cs.setupMode
      && Step(c.(remaining := w), s) == Ok(d.(remaining := w))
  {
    if s.Constraint? {
      CombinationIgnoresWitness(c, s.left, [], w);
      var a := Combination(c, s.left, []).value;
      CombinationIgnoresWitness(a.ctx, s.right, [], w);
      var b := Combination(a.ctx, s.right, []).value;
      CombinationIgnoresWitness(b.ctx, s.lin, [], w);
    }
  }

  lemma {:induction false} StatementsIgnoreWitness(c: Ctx, ss: seq<Statement>, w: Witness)
    requires c.cs.setupMode
    ensures Statements(c, ss).Ok?
    ensures var d := Statements(c, ss).value;
      && d.remaining == c.remaining && d.cs.setupMode
      && Statements(c.(remaining := w), ss) == Ok(d.(remaining := w))
    decreases |ss|
  {
    if ss != [] {
      StepIgnoresWitness(c, ss[0], w);
      StatementsIgnoreWitness(Step(c, ss[0]).value, ss[1..], w);
    }
  }

  /**
   * A setup pass succeeds on every program, leaves the witness it was given
   * untouched, and builds the same table and the same constraint system
   * whatever witness it was given, or none.
   */
  lemma SetupModeIgnoresWitness(p: Program, s0: CsState, w1: Option<Witness>, w2: Option<Witness>)
    requires s0.setupMode
    ensures Synthesize(p, Some(s0), w1).Ok? && Synthesize(p, Some(s0), w2).Ok?
    ensures var c1, c2 := Synthesize(p, Some(s0), w1).value, Synthesize(p, Some(s0), w2).value;
      && c1.remaining == w1.GetOr(map[])
      && c1.symbols == c2.symbols && c1.cs == c2.cs
  {
    var c0 := Seed(s0, w1);
    var r2 := w2.GetOr(map[]);
    assert Seed(s0, w2) == c0.(remaining := r2);
    ArgumentsIgnoreWitness(c0, p.arguments, r2);
    var a := Arguments(c0, p.arguments).value;
    StatementsIgnoreWitness(a, p.statements, r2);
  }

  // ----- a setup pass builds what a proving pass builds -----

  /**
   * A setup-mode state `s` and a proving-mode state `q` in lockstep: the same
   * table, the same constraints and the same variable counters; only the
   * recorded values and the witness may differ.
   */
  predicate Lockstep(s: Ctx, q: Ctx) {
    && s.cs.setupMode && !q.cs.setupMode
    && s.symbols == q.symbols
    && s.cs.constraints == q.cs.constraints
    && s.cs.numInstance == q.cs.numInstance
    && s.cs.numWitness == q.cs.numWitness
  }

  lemma EntryLockstep(s: Ctx, q: Ctx, k: FlatVariable)
    requires Lockstep(s, q) && Entry(q, k).Ok?
    ensures Entry(s, k).Ok?
    ensures Lockstep(Entry(s, k).value.ctx, Entry(q, k).value.ctx)
    ensures Entry(s, k).value.handle == Entry(q, k).value.handle
  {
  }

  lemma {:induction false} CombinationLockstep(s: Ctx, q: Ctx, l: CanonicalLinComb, acc: LinearCombination)
    requires Lockstep(s, q) && Combination(q, l, acc).Ok?
    ensures Combination(s, l, acc).Ok?
    ensures Lockstep(Combination(s, l, acc).value.ctx, Combination(q, l, acc).value.ctx)
    ensures Combination(s, l, acc).value.lc == Combination(q, l, acc).value.lc
    decreases |l|
  {
    if l != [] {
      EntryLockstep(s, q, l[0].0);
      var e, f := Entry(s, l[0].0).value, Entry(q, l[0].0).value;
      CombinationLockstep(e.ctx, f.ctx, l[1..], acc + [(l[0].1, f.handle)]);
    }
  }

  lemma {:induction false} ArgumentsLockstep(s: Ctx, q: Ctx, args: seq<Parameter>)
    requires Lockstep(s, q) && Arguments(q, args).Ok?
    ensures Arguments(s, args).Ok?
    ensures Lockstep(Arguments(s, args).value, Arguments(q, args).value)
    decreases |args|
  {
    if args != [] {
      var d, e := Argument(s, args[0]), Argument(q, args[0]);
      assert d.Ok? && e.Ok? && Lockstep(d.value, e.value);
      ArgumentsLockstep(d.value, e.value, args[1..]);
    }
  }

  lemma StepLockstep(s: Ctx, q: Ctx, st: Statement)
    requires Lockstep(s, q) && Step(q, st).Ok?
    ensures Step(s, st).Ok?
    ensures Lockstep(Step(s, st).value, Step(q, st).value)
  {
    if st.Constraint? {
      CombinationLockstep(s, q, st.left, []);
      var a, a' := Combination(s, st.left, []).value, Combination(q, st.left, []).value;
      CombinationLockstep(a.ctx, a'.ctx, st.right, []);
      var b, b' := Combination(a.ctx, st.right, []).value, Combination(a'.ctx, st.right, []).value;
      CombinationLockstep(b.ctx, b'.ctx, st.lin, []);
    }
  }

  lemma {:induction false} StatementsLockstep(s: Ctx, q: Ctx, ss: seq<Statement>)
    requires Lockstep(s, q) && Statements(q, ss).Ok?
    ensures Statements(s, ss).Ok?
    ensures Lockstep(Statements(s, ss).value, Statements(q, ss).value)
    decreases |ss|
  {
    if ss != [] {
      StepLockstep(s, q, ss[0]);
      StatementsLockstep(Step(s, ss[0]).value, Step(q, ss[0]).value, ss[1..]);
    }
  }

  /**
   * The key `setup` derives fits the system `prove` synthesises: whenever a
   * proving pass succeeds, a setup pass of the same program, with any witness
   * or none, builds the same table, the same constraints and the same numbers
   * of instance and witness variables.
   */
  lemma SetupMatchesProve(p: Program, w: Option<Witness>, w0: Witness)
    requires Synthesize(p, Some(Fresh(false)), Some(w0)).Ok?
    ensures Synthesize(p, Some(Fresh(true)), w).Ok?
    ensures var c, d := Synthesize(p, Some(Fresh(true)), w).value, Synthesize(p, Some(Fresh(false)), Some(w0)).value;
      && c.symbols == d.symbols
      && c.cs.constraints == d.cs.constraints
      && c.cs.numInstance == d.cs.numInstance
      && c.cs.numWitness == d.cs.numWitness
  {
    var s0, q0 := Seed(Fresh(true), w), Seed(Fresh(false), Some(w0));
    ArgumentsLockstep(s0, q0, p.arguments);
    StatementsLockstep(Arguments(s0, p.arguments).value, Arguments(q0, p.arguments).value, p.statements);
  }
}
