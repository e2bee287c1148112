/**
 * The expression renderer (pypsa/linopt.py lines 118-196): `_str_array`, which turns
 * numbers into signed LP terms, `linexpr`, which builds one linear expression per element
 * of the broadcast shape, and `join_exprs`, which concatenates an array of strings.
 */
module Render {
  import opened Wrappers
  import opened Arrays
  import opened Broadcasting

  /** '+' for zero and positive numbers, '-' for negative ones. */
  function SignChar(x: Number): char
  {
    if x.negative then '-' else '+'
  }

  /** `str(float(v))`: a leading '-' for a negative number, then its magnitude. */
  function FloatText(x: Number): string
  {
    (if x.negative then "-" else "") + x.magnitude
  }

  /** A Python int or float: `f'+{float(v)} '` when `v >= 0`, else `f'{float(v)} '`. */
  function ScalarTerm(x: Number): string
  {
    if !x.negative then "+" + FloatText(x) + " " else FloatText(x) + " "
  }

  /** An element of a numeric array: its sign, its absolute value, a space. */
  function ElementTerm(x: Number): string
  {
    [SignChar(x)] + x.magnitude + " "
  }

  /** Reads a signed term back: the sign, then everything up to the trailing space. */
  function ParseTerm(t: string): Option<Number>
  {
    if |t| >= 2 && (t[0] == '+' || t[0] == '-') && t[|t| - 1] == ' '
    then Some(Number(t[0] == '-', t[1..|t| - 1]))
    else None
  }

  /** The scalar path and the array path of `_str_array` write the same term. */
  lemma ScalarTermIsElementTerm(x: Number)
    ensures ScalarTerm(x) == ElementTerm(x)
  {
  }

  /** A term carries its number whole: sign and magnitude read back unchanged. */
  lemma ParseElementTerm(x: Number)
    ensures ParseTerm(ElementTerm(x)) == Some(x)
  {
    var t := ElementTerm(x);
    assert t[1..|t| - 1] == x.magnitude;
  }

  /** What `_str_array` returns: a string, or an array of strings (or an empty one). */
  predicate StringValued(op: Operand)
  {
    op.Text? || (op.Array? && (op.data.Objects? || op.data.Size() == 0))
  }

  /** The numeric payload rendered term by term; strings and empty arrays pass unchanged. */
  function RenderPayload(p: Payload): Payload
  {
    match p
    case Objects(_) => p
    case Numbers(ns) =>
      if |ns| == 0 then p
      else Objects(seq(|ns|, i requires 0 <= i < |ns| => ElementTerm(ns[i])))
  }

  /** `_str_array` */
  function StrArray(op: Operand): (r: Operand)
    ensures ShapeOf(r) == ShapeOf(op)
    ensures WellFormed(op) ==> WellFormed(r)
    ensures StringValued(r)
  {
    match op
    case Scalar(x) => Text(ScalarTerm(x))
    case Text(_) => op
    case Array(dims, data) =>
      ParseAll(data);
      Array(dims, RenderPayload(data))
    case Series(index, data) =>
      ParseAll(data);
      ProdOfTwo(|index|, 0);
      Array(ShapeOf(op), RenderPayload(data))
    case Frame(index, columns, data) =>
      ParseAll(data);
      ProdOfTwo(|index|, |columns|);
      Array(ShapeOf(op), RenderPayload(data))
  }

  /**
   * What `_str_array` writes: a scalar's term reads back to the number, strings and object
   * arrays come back unchanged, and each element of a numeric array becomes a term that
   * reads back to that element.
   */
  lemma StrArrayTerms(op: Operand)
    ensures op.Scalar? ==> StrArray(op).Text? && ParseTerm(StrArray(op).s) == Some(op.x)
    ensures op.Text? ==> StrArray(op) == op
    ensures !op.Scalar? && !op.Text? && op.data.Objects? ==> StrArray(op).Array? && StrArray(op).data == op.data
    ensures !op.Scalar? && !op.Text? && op.data.Numbers? ==>
      var r := StrArray(op);
      r.Array? && r.data.Size() == op.data.Size() &&
      forall i :: 0 <= i < op.data.Size() ==> r.data.Objects? && ParseTerm(r.data.items[i]) == Some(op.data.nums[i])
  {
    match op
    case Scalar(x) =>
      ParseElementTerm(x);
      ScalarTermIsElementTerm(x);
    case Text(_) =>
    case Array(_, data) => ParseAll(data);
    case Series(_, data) => ParseAll(data);
    case Frame(_, _, data) => ParseAll(data);
  }

  lemma ParseAll(p: Payload)
    ensures RenderPayload(p).Size() == p.Size()
    ensures p.Numbers? ==> forall i :: 0 <= i < p.Size() ==>
      RenderPayload(p).Objects? && ParseTerm(RenderPayload(p).items[i]) == Some(p.nums[i])
  {
    if p.Numbers? {
      forall i | 0 <= i < p.Size()
        ensures ParseTerm(RenderPayload(p).items[i]) == Some(p.nums[i])
      {
        ParseElementTerm(p.nums[i]);
      }
    }
  }

  /** Element `k` (row-major) of a string array broadcast onto `shape`. */
  function Elem(op: Operand, shape: seq<nat>, k: nat): string
    requires WellFormed(op) && Fits(op, shape) && |shape| <= 2 && k < Prod(shape)
    requires StringValued(op)
  {
    match op
    case Text(s) => s
    case Array(_, data) =>
      CellIndexInRange(op, shape, k);
      match data
      case Objects(items) => items[CellIndex(op, shape, k)]
      case Numbers(_) => ""  // an empty array: no element of it is ever read
  }

  /**
   * Element `k` of `_str_array(op)` broadcast onto `shape`; "" where linexpr would not read
   * one (an operand that does not fit, an index past the end).
   */
  function TermAt(op: Operand, shape: seq<nat>, k: nat): string
  {
    if WellFormed(op) && Fits(op, shape) && |shape| <= 2 && k < Prod(shape)
    then Elem(StrArray(op), shape, k)
    else ""
  }

  /** The coefficient and the variable are well formed and broadcast onto `shape`. */
  predicate PairFits(pair: (Operand, Operand), shape: seq<nat>)
  {
    WellFormed(pair.0) && WellFormed(pair.1) && Fits(pair.0, shape) && Fits(pair.1, shape)
  }

  /** Every pair of linexpr's arguments fits `shape`. */
  predicate PairsFit(pairs: seq<(Operand, Operand)>, shape: seq<nat>)
  {
    forall i :: 0 <= i < |pairs| ==> PairFits(pairs[i], shape)
  }

  /** The line one (coefficient, variable) pair adds at element `k`. */
  function PairLine(pair: (Operand, Operand), shape: seq<nat>, k: nat): string
  {
    TermAt(pair.0, shape, k) + TermAt(pair.1, shape, k) + "\n"
  }

  /** The lines of all pairs at element `k`, in argument order. */
  function Lines(pairs: seq<(Operand, Operand)>, shape: seq<nat>, k: nat): (r: seq<string>)
    ensures |r| == |pairs|
  {
    seq(|pairs|, i requires 0 <= i < |pairs| => PairLine(pairs[i], shape, k))
  }

  /** The text linexpr accumulates at element `k`: every pair's line, joined. */
  function Terms(pairs: seq<(Operand, Operand)>, shape: seq<nat>, k: nat): string
  {
    Join(Lines(pairs, shape, k))
  }

  /** The lines of several pairs are the lines of its parts, in argument order. */
  lemma LinesAppend(p: seq<(Operand, Operand)>, q: seq<(Operand, Operand)>, shape: seq<nat>, k: nat)
    ensures Lines(p + q, shape, k) == Lines(p, shape, k) + Lines(q, shape, k)
  {
    var whole, left, right := Lines(p + q, shape, k), Lines(p, shape, k), Lines(q, shape, k);
    forall i | 0 <= i < |whole| ensures whole[i] == (left + right)[i] {
      if i < |p| {
        assert (p + q)[i] == p[i];
        assert (left + right)[i] == left[i];
      } else {
        assert (p + q)[i] == q[i - |p|];
        assert (left + right)[i] == right[i - |p|];
      }
    }
  }

  /** The expression of several pairs is the expressions of its parts, in argument order. */
  lemma TermsAppend(p: seq<(Operand, Operand)>, q: seq<(Operand, Operand)>, shape: seq<nat>, k: nat)
    ensures Terms(p + q, shape, k) == Terms(p, shape, k) + Terms(q, shape, k)
  {
    LinesAppend(p, q, shape, k);
    JoinAppend(Lines(p, shape, k), Lines(q, shape, k));
  }

  /** Adding one more pair appends exactly its line. */
  lemma TermsSnoc(pairs: seq<(Operand, Operand)>, i: nat, shape: seq<nat>, k: nat)
    requires i < |pairs|
    ensures Terms(pairs[..i + 1], shape, k) == Terms(pairs[..i], shape, k) + PairLine(pairs[i], shape, k)
  {
    assert pairs[..i + 1] == pairs[..i] + [pairs[i]];
    TermsAppend(pairs[..i], [pairs[i]], shape, k);
    assert Join(Lines([pairs[i]], shape, k)) == PairLine(pairs[i], shape, k) + Join([]);
  }

  /** linexpr's arguments: each pair is a Python tuple. */
  function TupleArgs(pairs: seq<(Operand, Operand)>): seq<Arg>
  {
    seq(|pairs|, i requires 0 <= i < |pairs| => Tuple([pairs[i].0, pairs[i].1]))
  }

  /** Every coefficient and variable, pair by pair. */
  function Flat(pairs: seq<(Operand, Operand)>): (r: seq<Operand>)
    ensures |r| == 2 * |pairs|
  {
    if pairs == [] then [] else [pairs[0].0, pairs[0].1] + Flat(pairs[1..])
  }

  lemma {:induction false} SinglesAppend(a: seq<Arg>, b: seq<Arg>)
    ensures Singles(a + b) == Singles(a) + Singles(b)
    decreases |a|
  {
    if a == [] {
      assert a + b == b;
    } else {
      assert (a + b)[0] == a[0];
      assert (a + b)[1..] == a[1..] + b;
      SinglesAppend(a[1..], b);
    }
  }

  lemma {:induction false} SinglesOfFlattened(pairs: seq<(Operand, Operand)>)
    ensures AllTuples(TupleArgs(pairs))
    ensures Singles(FlattenTuples(TupleArgs(pairs))) == Flat(pairs)
    decreases |pairs|
  {
    if pairs != [] {
      var args := TupleArgs(pairs);
      assert args[1..] == TupleArgs(pairs[1..]);
      var head := args[0].items;
      var singles := seq(|head|, i requires 0 <= i < |head| => Single(head[i]));
      assert singles == [Single(pairs[0].0)] + [Single(pairs[0].1)];
      SinglesOfFlattened(pairs[1..]);
      SinglesAppend(singles, FlattenTuples(args[1..]));
      SinglesAppend([Single(pairs[0].0)], [Single(pairs[0].1)]);
    }
  }

  /** broadcasted_axes, called on linexpr's tuples, inspects every coefficient and variable. */
  lemma LinExprOperands(pairs: seq<(Operand, Operand)>)
    ensures Operands(TupleArgs(pairs)) == Flat(pairs)
  {
    SinglesOfFlattened(pairs);
  }

  /**
   * linexpr's loop: starting from empty strings, appends each pair's terms elementwise;
   * None when a coefficient or variable does not broadcast onto `shape`.
   */
  method FillTerms(pairs: seq<(Operand, Operand)>, shape: seq<nat>) returns (expr: Option<seq<string>>)
    requires |shape| <= 2
    requires forall i :: 0 <= i < |pairs| ==> WellFormed(pairs[i].0) && WellFormed(pairs[i].1)
    ensures expr.Some? <==> PairsFit(pairs, shape)
    ensures expr.Some? ==> |expr.value| == Prod(shape)
    ensures expr.Some? ==> forall k :: 0 <= k < Prod(shape) ==> expr.value[k] == Terms(pairs, shape, k)
  {
    var size := Prod(shape);
    var cells := seq(size, k => "");
    var i := 0;
    while i < |pairs|
      invariant 0 <= i <= |pairs| && |cells| == size
      invariant PairsFit(pairs[..i], shape)
      invariant forall k :: 0 <= k < size ==> cells[k] == Terms(pairs[..i], shape, k)
    {
      var (coeff, variable) := pairs[i];
      if !(Fits(coeff, shape) && Fits(variable, shape)) {
        assert !PairsFit(pairs, shape) by {
          assert pairs[i] == (coeff, variable);
        }
        return None;
      }
      assert PairsFit(pairs[..i + 1], shape) by {
        assert pairs[..i + 1] == pairs[..i] + [pairs[i]];
      }
      forall k | 0 <= k < size
        ensures Terms(pairs[..i + 1], shape, k) == cells[k] + PairLine(pairs[i], shape, k)
      {
        TermsSnoc(pairs, i, shape, k);
      }
      cells := seq(size, k requires 0 <= k < size => cells[k] + PairLine(pairs[i], shape, k));
      i := i + 1;
    }
    assert pairs[..i] == pairs;
    expr := Some(cells);
  }

  /**
   * linexpr.  Broadcasts the pairs, starts from an array of empty strings and appends each
   * pair's terms elementwise; `asPandas` labels the result with the broadcast axes.
   */
  method LinExpr(pairs: seq<(Operand, Operand)>, asPandas: bool) returns (r: Result<Operand, LpError>)
    requires forall i :: 0 <= i < |pairs| ==> WellFormed(pairs[i].0) && WellFormed(pairs[i].1)
    ensures Broadcast(Flat(pairs)).Err? ==> r == Err(Misaligned)
    ensures Broadcast(Flat(pairs)) == Ok([]) ==> r == Err(FloatCount)
    ensures var b := Broadcast(Flat(pairs));
      b.Ok? && b.value != [] ==>
        var shape := Lengths(b.value);
        && (Prod(shape) > 0 && !PairsFit(pairs, shape) ==> r == Err(Unbroadcastable))
        && (Prod(shape) == 0 || PairsFit(pairs, shape) ==>
              && r.Ok? && ShapeOf(r.value) == shape && r.value.data.Objects?
              && |r.value.data.items| == Prod(shape)
              && (if asPandas then r.value == WithAxes(b.value, r.value.data) else r.value.Array?))
        && (PairsFit(pairs, shape) && r.Ok? ==>
              forall k :: 0 <= k < Prod(shape) ==> r.value.data.items[k] == Terms(pairs, shape, k))
  {
    LinExprOperands(pairs);
    var b := BroadcastedAxes(TupleArgs(pairs));
    if b.Err? {
      BroadcastErrIsMisaligned(Flat(pairs));
      return Err(b.error);
    }
    var axes := b.value;
    var shape := Lengths(axes);
    if shape == [] {
      return Err(FloatCount);
    }
    var cells: seq<string> := [];
    if Prod(shape) > 0 {
      var filled := FillTerms(pairs, shape);
      if filled.None? {
        return Err(Unbroadcastable);
      }
      cells := filled.value;
    }
    ProdOfTwo(|axes[0]|, if |axes| == 2 then |axes[1]| else 0);
    r := Ok(if asPandas then WithAxes(axes, Objects(cells)) else Array(shape, Objects(cells)));
  }

  /** The only way broadcasted_axes fails is a misaligned trailing axis. */
  lemma {:induction false} BroadcastErrIsMisaligned(ops: seq<Operand>)
    ensures Broadcast(ops).Err? ==> Broadcast(ops).error == Misaligned
  {
    BroadcastFromErr([], ops);
  }

  lemma {:induction false} BroadcastFromErr(axes: Axes, ops: seq<Operand>)
    requires |axes| <= 2
    ensures BroadcastFrom(axes, ops).Err? ==> BroadcastFrom(axes, ops).error == Misaligned
    decreases |ops|
  {
    if ops != [] && Step(axes, ops[0]).Ok? {
      BroadcastFromErr(Step(axes, ops[0]).value, ops[1..]);
    }
  }

  /** `''.join(items)` */
  function Join(items: seq<string>): string
  {
    if items == [] then "" else items[0] + Join(items[1..])
  }

  /** Joining distributes over concatenation: parts are joined in order, with no separator. */
  lemma {:induction false} JoinAppend(a: seq<string>, b: seq<string>)
    ensures Join(a + b) == Join(a) + Join(b)
    decreases |a|
  {
    if a == [] {
      assert a + b == b;
    } else {
      assert (a + b)[1..] == a[1..] + b;
      JoinAppend(a[1..], b);
    }
  }

  /** Element `i` sits, whole, between the join of those before it and of those after it. */
  lemma {:induction false} JoinAt(items: seq<string>, i: nat)
    requires i < |items|
    ensures Join(items) == Join(items[..i]) + items[i] + Join(items[i + 1..])
  {
    var post := items[i + 1..];
    assert items == items[..i] + ([items[i]] + post);
    JoinAppend(items[..i], [items[i]] + post);
    assert ([items[i]] + post)[1..] == post;
  }

  /**
   * join_exprs: `''.join(np.asarray(df).flatten())` over an array, Series or DataFrame of
   * strings, in row-major order; a lone string is its own join.
   */
  function JoinExprs(op: Operand): (r: string)
    requires op.Text? || (!op.Scalar? && op.data.Objects?)
    ensures op.Text? ==> r == op.s
    ensures !op.Text? ==> |op.data.items| == 0 ==> r == ""
  {
    match op
    case Text(s) => s
    case Array(_, data) => Join(data.items)
    case Series(_, data) => Join(data.items)
    case Frame(_, _, data) => Join(data.items)
  }
}
