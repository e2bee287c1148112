/**
 * broadcasted_axes (pypsa/linopt.py lines 92-115): the axes of the result of an
 * elementwise operation over Series, DataFrames and plain values, with the check that
 * the labelled operands agree on their trailing axis.
 */
module Broadcasting {
  import opened Wrappers
  import opened Arrays

  /** One positional argument of broadcasted_axes: a value, or a Python tuple of values. */
  datatype Arg = Single(op: Operand) | Tuple(items: seq<Operand>)

  predicate AllTuples(args: seq<Arg>)
  {
    forall i :: 0 <= i < |args| ==> args[i].Tuple?
  }

  /** `sum(args, ())`: the items of the tuples, in order. */
  function FlattenTuples(args: seq<Arg>): seq<Arg>
    requires AllTuples(args)
  {
    if args == [] then []
    else
      var head := args[0].items;
      seq(|head|, i requires 0 <= i < |head| => Single(head[i])) + FlattenTuples(args[1..])
  }

  /** The values the loop looks at; a tuple that was not flattened is no Series and is passed over. */
  function Singles(args: seq<Arg>): seq<Operand>
  {
    if args == [] then []
    else (if args[0].Single? then [args[0].op] else []) + Singles(args[1..])
  }

  /** The operands broadcasted_axes inspects, after flattening when every argument is a tuple. */
  function Operands(args: seq<Arg>): seq<Operand>
  {
    if |args| > 0 && AllTuples(args) then Singles(FlattenTuples(args)) else Singles(args)
  }

  function Last(axes: Axes): seq<Label>
    requires |axes| > 0
  {
    axes[|axes| - 1]
  }

  /** One turn of the loop: check the trailing axis, keep the axes with more dimensions. */
  function Step(axes: Axes, op: Operand): Result<Axes, LpError>
  {
    if !IsLabelled(op) then Ok(axes)
    else if |axes| > 0 && Last(axes) != Last(AxesOf(op)) then Err(Misaligned)
    else Ok(if |AxesOf(op)| > |axes| then AxesOf(op) else axes)
  }

  /** The loop from the axes found so far over the remaining operands. */
  function BroadcastFrom(axes: Axes, ops: seq<Operand>): (r: Result<Axes, LpError>)
    requires |axes| <= 2
    ensures r.Ok? ==> |r.value| <= 2
    decreases |ops|
  {
    if ops == [] then Ok(axes)
    else match Step(axes, ops[0])
      case Err(e) => Err(e)
      case Ok(next) => BroadcastFrom(next, ops[1..])
  }

  /** The specification of broadcasted_axes over the operands it inspects. */
  function Broadcast(ops: seq<Operand>): (r: Result<Axes, LpError>)
    ensures r.Ok? ==> |r.value| <= 2
  {
    BroadcastFrom([], ops)
  }

  lemma SinglesAt(dfs: seq<Arg>, i: nat)
    requires i < |dfs|
    ensures Singles(dfs[i..]) == (if dfs[i].Single? then [dfs[i].op] else []) + Singles(dfs[i + 1..])
  {
    assert dfs[i..][1..] == dfs[i + 1..];
  }

  lemma BroadcastFromCons(axes: Axes, op: Operand, rest: seq<Operand>)
    requires |axes| <= 2
    ensures Step(axes, op).Err? ==> BroadcastFrom(axes, [op] + rest) == Step(axes, op)
    ensures Step(axes, op).Ok? ==> BroadcastFrom(axes, [op] + rest) == BroadcastFrom(Step(axes, op).value, rest)
  {
    assert ([op] + rest)[1..] == rest;
  }

  /** broadcasted_axes; the shape it also returns is `Lengths` of the axes. */
  method BroadcastedAxes(args: seq<Arg>) returns (r: Result<Axes, LpError>)
    ensures r == Broadcast(Operands(args))
  {
    var dfs := args;
    if |args| > 0 && AllTuples(args) {
      dfs := FlattenTuples(args);
    }
    assert dfs[0..] == dfs;
    var axes: Axes := [];
    var i := 0;
    while i < |dfs|
      invariant 0 <= i <= |dfs| && |axes| <= 2
      invariant BroadcastFrom(axes, Singles(dfs[i..])) == Broadcast(Operands(args))
    {
      SinglesAt(dfs, i);
      match dfs[i] {
        case Single(df) =>
          BroadcastFromCons(axes, df, Singles(dfs[i + 1..]));
          if IsLabelled(df) {
            if |axes| > 0 && Last(axes) != Last(AxesOf(df)) {
              return Err(Misaligned);
            }
            axes := if |AxesOf(df)| > |axes| then AxesOf(df) else axes;
          }
        case Tuple(_) =>
          assert Singles(dfs[i..]) == Singles(dfs[i + 1..]);
      }
      i := i + 1;
    }
    r := Ok(axes);
  }

  /** Every labelled operand has trailing axis `last`. */
  predicate AgreeWith(ops: seq<Operand>, last: seq<Label>)
  {
    forall i :: 0 <= i < |ops| && IsLabelled(ops[i]) ==> Last(AxesOf(ops[i])) == last
  }

  /** Any two labelled operands have the same trailing axis. */
  predicate TrailingAgree(ops: seq<Operand>)
  {
    forall i, j :: 0 <= i < |ops| && 0 <= j < |ops| && IsLabelled(ops[i]) && IsLabelled(ops[j]) ==>
      Last(AxesOf(ops[i])) == Last(AxesOf(ops[j]))
  }

  lemma {:induction false} BroadcastFromOkIff(axes: Axes, ops: seq<Operand>)
    requires 0 < |axes| <= 2
    ensures BroadcastFrom(axes, ops).Ok? <==> AgreeWith(ops, Last(axes))
    decreases |ops|
  {
    if ops != [] {
      var rest := ops[1..];
      assert forall i :: 0 < i < |ops| ==> ops[i] == rest[i - 1];
      var step := Step(axes, ops[0]);
      if step.Ok? {
        assert Last(step.value) == Last(axes);
        BroadcastFromOkIff(step.value, rest);
      }
    }
  }

  /**
   * broadcasted_axes succeeds exactly when all labelled operands share their trailing
   * axis (compared label by label, in order); otherwise it raises.
   */
  lemma {:induction false} BroadcastOkIff(ops: seq<Operand>)
    ensures Broadcast(ops).Ok? <==> TrailingAgree(ops)
    decreases |ops|
  {
    if ops != [] {
      var rest := ops[1..];
      assert forall i :: 0 < i < |ops| ==> ops[i] == rest[i - 1];
      assert ops == [ops[0]] + rest;
      if IsLabelled(ops[0]) {
        var first := AxesOf(ops[0]);
        assert Step([], ops[0]) == Ok(first);
        BroadcastFromOkIff(first, rest);
        if AgreeWith(rest, Last(first)) {
          assert AgreeWith(ops, Last(first));
        }
      } else {
        BroadcastOkIff(rest);
      }
    }
  }

  /** `ops[i]` is the first labelled operand whose axes, with the most dimensions, are `res`. */
  predicate FirstWidest(ops: seq<Operand>, i: int, res: Axes)
  {
    0 <= i < |ops| && IsLabelled(ops[i]) && AxesOf(ops[i]) == res
    && forall j :: 0 <= j < i && IsLabelled(ops[j]) ==> |AxesOf(ops[j])| < |res|
  }

  lemma {:induction false} BroadcastFromChoice(axes: Axes, ops: seq<Operand>, res: Axes)
    requires |axes| <= 2 && BroadcastFrom(axes, ops) == Ok(res)
    ensures |axes| <= |res|
    ensures forall j :: 0 <= j < |ops| && IsLabelled(ops[j]) ==> |AxesOf(ops[j])| <= |res|
    ensures res == axes || (|axes| < |res| && exists i :: FirstWidest(ops, i, res))
    decreases |ops|
  {
    if ops != [] {
      var rest := ops[1..];
      assert forall i :: 0 < i < |ops| ==> ops[i] == rest[i - 1];
      var next := Step(axes, ops[0]).value;
      BroadcastFromChoice(next, rest, res);
      if res != next {
        var i :| FirstWidest(rest, i, res);
        assert FirstWidest(ops, i + 1, res);
      } else if next != axes {
        assert FirstWidest(ops, 0, res);
      }
    }
  }

  /**
   * The axes broadcasted_axes returns: none when no operand is labelled; otherwise the
   * axes of the first labelled operand with the most dimensions.
   */
  lemma BroadcastChoice(ops: seq<Operand>, res: Axes)
    requires Broadcast(ops) == Ok(res)
    ensures res == [] <==> forall i :: 0 <= i < |ops| ==> !IsLabelled(ops[i])
    ensures forall j :: 0 <= j < |ops| && IsLabelled(ops[j]) ==> |AxesOf(ops[j])| <= |res|
    ensures res != [] ==> exists i :: FirstWidest(ops, i, res)
  {
    BroadcastFromChoice([], ops, res);
  }

  /**
   * After a successful broadcast every labelled Series broadcasts onto the result's shape;
   * a DataFrame does exactly when its row count is the result's (its row labels are never
   * compared).
   */
  lemma BroadcastFits(ops: seq<Operand>, res: Axes)
    requires Broadcast(ops) == Ok(res)
    ensures forall i :: 0 <= i < |ops| && ops[i].Series? ==> Fits(ops[i], Lengths(res))
    ensures forall i :: 0 <= i < |ops| && ops[i].Frame? ==>
      (Fits(ops[i], Lengths(res)) <==> |res| == 2 && |ops[i].index| == |res[0]|)
  {
    BroadcastOkIff(ops);
    BroadcastChoice(ops, res);
    forall i | 0 <= i < |ops| && IsLabelled(ops[i])
      ensures res != [] && Last(AxesOf(ops[i])) == Last(res)
    {
      var k :| FirstWidest(ops, k, res);
    }
    forall i | 0 <= i < |ops| && ops[i].Frame?
      ensures Fits(ops[i], Lengths(res)) <==> |res| == 2 && |ops[i].index| == |res[0]|
    {
      assert |AxesOf(ops[i])| == 2;
      assert |res| == 2 && Last(res) == res[1];
    }
  }

  /** Two DataFrames with the same columns but different rows pass the check. */
  lemma RowLabelsNotCompared()
    ensures Broadcast([Frame(["a"], ["p"], Objects(["x0"])), Frame(["b"], ["p"], Objects(["x1"]))])
      == Ok([["a"], ["p"]])
  {
    var ops := [Frame(["a"], ["p"], Objects(["x0"])), Frame(["b"], ["p"], Objects(["x1"]))];
    assert ops[1..][1..] == [];
  }
}
