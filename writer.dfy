/**
 * The two writers (pypsa/linopt.py lines 33-76): write_bound writes one line
 * `lower <= xN <= upper` per element, write_constraint one record `cN:` lhs sense rhs per
 * element, each drawing its names from its counter and returning them as a Series or
 * DataFrame over the axes of the write.
 */
module Writer {
  import opened Wrappers
  import opened Arrays
  import opened Tokens
  import opened Broadcasting
  import opened Render
  import opened Networks

  /** The given axes, or else those broadcasted_axes finds for the two operands. */
  function ResolveAxes(given: Option<Axes>, a: Operand, b: Operand): (r: Result<Axes, LpError>)
    requires given.Some? ==> |given.value| <= 2
    ensures r.Ok? ==> |r.value| <= 2
  {
    if given.Some? then Ok(given.value) else Broadcast([a, b])
  }

  lemma OperandsOfTwo(a: Operand, b: Operand)
    ensures Operands([Single(a), Single(b)]) == [a, b]
  {
    var args := [Single(a), Single(b)];
    assert !AllTuples(args) by {
      assert !args[0].Tuple?;
    }
    assert args[1..] == [Single(b)];
    assert args[1..][1..] == [];
    assert Singles(args) == [a] + Singles([Single(b)]);
  }

  /** numpy broadcasts the operand onto the written shape, or raises. */
  function CheckOperand(op: Operand, shape: seq<nat>): (r: Outcome<LpError>)
    ensures r == Pass <==> Fits(op, shape)
    ensures r.Fail? ==> r.error == Unbroadcastable
  {
    if Fits(op, shape) then Pass else Fail(Unbroadcastable)
  }

  /**
   * The first operand, left to right, that does not broadcast.  In write_constraint every
   * operand is added to the object array `cons + ':\n'`, so numpy's object loop is used and
   * even an empty numeric operand raises nothing but a shape mismatch.
   */
  function FirstFailure(ops: seq<Operand>, shape: seq<nat>): Outcome<LpError>
    decreases |ops|
  {
    if ops == [] then Pass
    else if CheckOperand(ops[0], shape).Fail? then CheckOperand(ops[0], shape)
    else FirstFailure(ops[1..], shape)
  }

  /** The record expression is built exactly when every operand broadcasts onto the shape. */
  lemma {:induction false} FirstFailurePasses(ops: seq<Operand>, shape: seq<nat>)
    ensures FirstFailure(ops, shape) == Pass <==> forall i :: 0 <= i < |ops| ==> Fits(ops[i], shape)
    ensures FirstFailure(ops, shape).Fail? ==> FirstFailure(ops, shape).error == Unbroadcastable
    decreases |ops|
  {
    if ops != [] {
      FirstFailurePasses(ops[1..], shape);
      assert forall i :: 1 <= i < |ops| ==> ops[i] == ops[1..][i - 1];
    }
  }

  /** `_str_array(op)` left an empty numeric array as numbers. */
  predicate StaysNumeric(op: Operand)
  {
    var s := StrArray(op);
    s.Array? && s.data.Numbers?
  }

  /**
   * write_bound's expression: `lower + ' <= '` comes first, and numpy has no loop adding a
   * numeric array to a str, so an empty numeric lower raises there; `upper` is added to an
   * object array, so only its shape matters.
   */
  function BoundCheck(lower: Operand, upper: Operand, shape: seq<nat>): Outcome<LpError>
  {
    if StaysNumeric(lower) then Fail(NotText) else FirstFailure([lower, upper], shape)
  }

  /**
   * The bounds are written exactly when lower is not left numeric and both bounds broadcast;
   * an empty numeric upper is accepted.
   */
  lemma BoundCheckPasses(lower: Operand, upper: Operand, shape: seq<nat>)
    ensures BoundCheck(lower, upper, shape) == Pass <==> !StaysNumeric(lower) && Fits(lower, shape) && Fits(upper, shape)
    ensures StaysNumeric(lower) ==> BoundCheck(lower, upper, shape) == Fail(NotText)
    ensures BoundCheck(lower, upper, shape).Fail? && !StaysNumeric(lower) ==>
      BoundCheck(lower, upper, shape) == Fail(Unbroadcastable)
  {
    FirstFailurePasses([lower, upper], shape);
  }

  /** One line of the bounds file. */
  function BoundRecord(lower: Operand, upper: Operand, shape: seq<nat>, token: string, k: nat): string
  {
    TermAt(lower, shape, k) + " <= " + token + " <= " + TermAt(upper, shape, k) + "\n"
  }

  /** The lines write_bound writes, element by element in row-major order. */
  function BoundRecords(lower: Operand, upper: Operand, shape: seq<nat>, tokens: seq<string>): (r: seq<string>)
    ensures |r| == |tokens|
  {
    seq(|tokens|, k requires 0 <= k < |tokens| => BoundRecord(lower, upper, shape, tokens[k], k))
  }

  /**
   * write_bound.  The counter is advanced before anything can fail after the axes are
   * known, so a write that raises later still uses up its names.
   */
  method WriteBound(counters: Counters, n: Network, lower: Operand, upper: Operand, given: Option<Axes>)
    returns (r: Result<Operand, LpError>)
    requires WellFormed(lower) && WellFormed(upper)
    requires given.Some? ==> |given.value| <= 2
    modifies counters, n`boundsFile
    ensures ResolveAxes(given, lower, upper).Err? ==>
      && r == Err(ResolveAxes(given, lower, upper).error)
      && counters.xCounter == old(counters.xCounter) && counters.xIsFloat == old(counters.xIsFloat)
      && counters.cCounter == old(counters.cCounter) && counters.cIsFloat == old(counters.cIsFloat)
      && n.boundsFile == old(n.boundsFile)
    ensures ResolveAxes(given, lower, upper).Ok? ==>
      var axes := ResolveAxes(given, lower, upper).value;
      var shape := Lengths(axes);
      && counters.xCounter == old(counters.xCounter) + Prod(shape)
      && counters.xIsFloat == (old(counters.xIsFloat) || shape == [])
      && counters.cCounter == old(counters.cCounter) && counters.cIsFloat == old(counters.cIsFloat)
      && (counters.xIsFloat ==> r == Err(FloatCount) && n.boundsFile == old(n.boundsFile))
      && (!counters.xIsFloat ==>
            var tokens := Block(Variable, old(counters.xCounter), Prod(shape));
            var check := BoundCheck(lower, upper, shape);
            if check.Fail? then r == Err(check.error) && n.boundsFile == old(n.boundsFile)
            else
              && 1 <= |axes|
              && r == Ok(WithAxes(axes, Objects(tokens)))
              && n.boundsFile == old(n.boundsFile) + BoundRecords(lower, upper, shape, tokens))
  {
    var axes: Axes;
    if given.Some? {
      axes := given.value;
    } else {
      OperandsOfTwo(lower, upper);
      var b := BroadcastedAxes([Single(lower), Single(upper)]);
      if b.Err? {
        return Err(b.error);
      }
      axes := b.value;
    }
    var shape := Lengths(axes);
    var tokens := counters.Allocate(Variable, shape);
    if tokens.None? {
      return Err(FloatCount);
    }
    var check := BoundCheck(lower, upper, shape);
    if check.Fail? {
      return Err(check.error);
    }
    var records := BoundRecords(lower, upper, shape, tokens.value);
    n.WriteBounds(records);
    ProdOfTwo(|axes[0]|, if |axes| == 2 then |axes[1]| else 0);
    r := Ok(WithAxes(axes, Objects(tokens.value)));
  }

  /** `'=' if sense == '==' else sense` for a str; anything else is used as it is. */
  function NormaliseSense(sense: Operand): (r: Operand)
    ensures r != Text("==")
    ensures r != sense ==> sense == Text("==") && r == Text("=")
  {
    if sense == Text("==") then Text("=") else sense
  }

  /** What follows the name in a record: newline, lhs, sense, newline, rhs, blank line. */
  function ConstraintBody(lhs: Operand, sense: Operand, rhs: Operand, shape: seq<nat>, k: nat): string
  {
    "\n" + TermAt(lhs, shape, k) + TermAt(sense, shape, k) + "\n" + TermAt(rhs, shape, k) + "\n\n"
  }

  /** One record of the constraints file: the name, a colon, then the body. */
  function ConstraintRecord(lhs: Operand, sense: Operand, rhs: Operand, shape: seq<nat>, token: string, k: nat): string
  {
    token + ":" + ConstraintBody(lhs, sense, rhs, shape, k)
  }

  /** The records write_constraint writes, element by element in row-major order. */
  function ConstraintRecords(lhs: Operand, sense: Operand, rhs: Operand, shape: seq<nat>, tokens: seq<string>): (r: seq<string>)
    ensures |r| == |tokens|
  {
    seq(|tokens|, k requires 0 <= k < |tokens| => ConstraintRecord(lhs, sense, rhs, shape, tokens[k], k))
  }

  /**
   * write_constraint.  Axes come from the lhs and rhs (the sense is not consulted), the
   * counter advances, and `==` is written as `=`.
   */
  method WriteConstraint(counters: Counters, n: Network, lhs: Operand, sense: Operand, rhs: Operand, given: Option<Axes>)
    returns (r: Result<Operand, LpError>)
    requires WellFormed(lhs) && WellFormed(sense) && WellFormed(rhs)
    requires given.Some? ==> |given.value| <= 2
    modifies counters, n`constraintsFile
    ensures ResolveAxes(given, lhs, rhs).Err? ==>
      && r == Err(ResolveAxes(given, lhs, rhs).error)
      && counters.xCounter == old(counters.xCounter) && counters.xIsFloat == old(counters.xIsFloat)
      && counters.cCounter == old(counters.cCounter) && counters.cIsFloat == old(counters.cIsFloat)
      && n.constraintsFile == old(n.constraintsFile)
    ensures ResolveAxes(given, lhs, rhs).Ok? ==>
      var axes := ResolveAxes(given, lhs, rhs).value;
      var shape := Lengths(axes);
      && counters.cCounter == old(counters.cCounter) + Prod(shape)
      && counters.cIsFloat == (old(counters.cIsFloat) || shape == [])
      && counters.xCounter == old(counters.xCounter) && counters.xIsFloat == old(counters.xIsFloat)
      && (counters.cIsFloat ==> r == Err(FloatCount) && n.constraintsFile == old(n.constraintsFile))
      && (!counters.cIsFloat ==>
            var tokens := Block(Constraint, old(counters.cCounter), Prod(shape));
            var ops := [lhs, NormaliseSense(sense), rhs];
            var check := FirstFailure(ops, shape);
            if check.Fail? then r == Err(check.error) && n.constraintsFile == old(n.constraintsFile)
            else
              && 1 <= |axes|
              && r == Ok(WithAxes(axes, Objects(tokens)))
              && n.constraintsFile == old(n.constraintsFile) + ConstraintRecords(lhs, NormaliseSense(sense), rhs, shape, tokens))
  {
    var axes: Axes;
    if given.Some? {
      axes := given.value;
    } else {
      OperandsOfTwo(lhs, rhs);
      var b := BroadcastedAxes([Single(lhs), Single(rhs)]);
      if b.Err? {
        return Err(b.error);
      }
      axes := b.value;
    }
    var shape := Lengths(axes);
    var tokens := counters.Allocate(Constraint, shape);
    if tokens.None? {
      return Err(FloatCount);
    }
    var s := NormaliseSense(sense);
    var check := FirstFailure([lhs, s, rhs], shape);
    if check.Fail? {
      return Err(check.error);
    }
    var records := ConstraintRecords(lhs, s, rhs, shape, tokens.value);
    n.WriteConstraints(records);
    ProdOfTwo(|axes[0]|, if |axes| == 2 then |axes[1]| else 0);
    r := Ok(WithAxes(axes, Objects(tokens.value)));
  }

  /** The text before the first ':' of a record, the way an LP reader finds the row name. */
  function UpToColon(s: string): string
    decreases |s|
  {
    if s == [] || s[0] == ':' then [] else [s[0]] + UpToColon(s[1..])
  }

  lemma {:induction false} UpToColonOfPrefix(name: string, rest: string)
    requires forall i :: 0 <= i < |name| ==> name[i] != ':'
    ensures UpToColon(name + ":" + rest) == name
    decreases |name|
  {
    if name == [] {
      assert (name + ":" + rest)[0] == ':';
    } else {
      assert (name + ":" + rest)[1..] == name[1..] + ":" + rest;
      UpToColonOfPrefix(name[1..], rest);
    }
  }

  /** A name token holds no colon: a prefix letter and decimal digits. */
  lemma TokenHasNoColon(kind: Kind, k: nat)
    ensures forall i :: 0 <= i < |TokenText(kind, k)| ==> TokenText(kind, k)[i] != ':'
  {
    var t := TokenText(kind, k);
    forall i | 0 <= i < |t| ensures t[i] != ':'
    {
      if i > 0 {
        assert t[i] == Decimal(k)[i - 1];
      }
    }
  }

  /** Each constraint record starts with the name of its constraint, which reads back as its number. */
  lemma ConstraintRecordNamesItsRow(lhs: Operand, sense: Operand, rhs: Operand, shape: seq<nat>, k: nat, j: nat)
    ensures UpToColon(ConstraintRecord(lhs, sense, rhs, shape, TokenText(Constraint, k), j)) == TokenText(Constraint, k)
    ensures ParseToken(UpToColon(ConstraintRecord(lhs, sense, rhs, shape, TokenText(Constraint, k), j))) == Some((Constraint, k))
  {
    var t := TokenText(Constraint, k);
    TokenHasNoColon(Constraint, k);
    UpToColonOfPrefix(t, ConstraintBody(lhs, sense, rhs, shape, j));
    ParseTokenText(Constraint, k);
  }
}
