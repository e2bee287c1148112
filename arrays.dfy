/**
 * The operands the LP writer works on (pypsa/linopt.py): Python numbers and strings,
 * unlabelled numpy arrays, pandas Series and DataFrames, their axes and shapes, and the
 * errors the writer raises.  Array data is kept flat, in row-major order, as numpy's
 * `flatten()` yields it.
 */
module Arrays {

  /** The exceptions of the writing half, named after what causes them. */
  datatype LpError =
    | Misaligned       // broadcasted_axes: two labelled operands disagree on their trailing axis
    | FloatCount       // np.prod(()) is the float 1.0, which range() and np.repeat() refuse
    | Unbroadcastable  // numpy cannot broadcast an operand onto the shape of the result
    | TableMissing     // n.variables / n.constraints were deleted by clear_references
    | NotRegistered    // (component, attribute) has no row in n.variables / n.constraints
    | NotStored        // no stored table or column under attribute + suffix
    | NotText          // write_bound's lower is an empty numeric array, which _str_array leaves as numbers, and meets the str ' <= '

  type Label = string

  /** `df.axes`: [index] for a Series, [index, columns] for a DataFrame. */
  type Axes = seq<seq<Label>>

  /**
   * A finite float as `_str_array` sees it: whether it is negative, and the text Python
   * prints for its absolute value (float-to-text itself is not modelled).
   */
  datatype Number = Number(negative: bool, magnitude: string)

  /** The data of an array: numbers (a numeric dtype) or strings (dtype object). */
  datatype Payload = Numbers(nums: seq<Number>) | Objects(items: seq<string>)
  {
    function Size(): nat
    {
      match this
      case Numbers(ns) => |ns|
      case Objects(xs) => |xs|
    }
  }

  datatype Operand =
    | Scalar(x: Number)                                              // a Python int or float
    | Text(s: string)                                                // a Python str
    | Array(dims: seq<nat>, data: Payload)                           // an unlabelled numpy array
    | Series(index: seq<Label>, data: Payload)                       // a pandas Series
    | Frame(index: seq<Label>, columns: seq<Label>, data: Payload)   // a pandas DataFrame

  /** `np.prod(shape)`, the number of elements of an array of that shape. */
  function Prod(shape: seq<nat>): nat
  {
    if shape == [] then 1 else shape[0] * Prod(shape[1..])
  }

  /** `tuple(map(len, axes))` */
  function Lengths(axes: Axes): seq<nat>
  {
    seq(|axes|, i requires 0 <= i < |axes| => |axes[i]|)
  }

  /** `isinstance(op, (pd.Series, pd.DataFrame))` */
  predicate IsLabelled(op: Operand)
  {
    op.Series? || op.Frame?
  }

  function AxesOf(op: Operand): (axes: Axes)
    requires IsLabelled(op)
    ensures 1 <= |axes| <= 2
  {
    if op.Series? then [op.index] else [op.index, op.columns]
  }

  /** `np.shape(op)` */
  function ShapeOf(op: Operand): seq<nat>
  {
    match op
    case Scalar(_) => []
    case Text(_) => []
    case Array(dims, _) => dims
    case Series(index, _) => [|index|]
    case Frame(index, columns, _) => [|index|, |columns|]
  }

  predicate Distinct(labels: seq<Label>)
  {
    forall i, j :: 0 <= i < j < |labels| ==> labels[i] != labels[j]
  }

  /**
   * What numpy and pandas guarantee of every value: as many data as the shape says.  Labels
   * may repeat; pandas does not require them to be unique.
   */
  predicate WellFormed(op: Operand)
  {
    match op
    case Scalar(_) => true
    case Text(_) => true
    case Array(dims, data) => 1 <= |dims| <= 2 && data.Size() == Prod(dims)
    case Series(index, data) => data.Size() == |index|
    case Frame(index, columns, data) => data.Size() == |index| * |columns|
  }

  /** No label repeats on either axis of a Series or DataFrame. */
  predicate UniqueLabels(op: Operand)
  {
    match op
    case Series(index, _) => Distinct(index)
    case Frame(index, columns, _) => Distinct(index) && Distinct(columns)
    case _ => true
  }

  /**
   * numpy broadcasts `op` onto `shape`: the operand's shape is a trailing part of it
   * (a scalar broadcasts everywhere, a 1-D operand along the rows of a 2-D result).
   */
  predicate Fits(op: Operand, shape: seq<nat>)
  {
    var sh := ShapeOf(op);
    |sh| <= |shape| && sh == shape[|shape| - |sh|..]
  }

  /** The position in `op`'s flat data that numpy reads for element `k` of the result. */
  function CellIndex(op: Operand, shape: seq<nat>, k: nat): nat
  {
    var sh := ShapeOf(op);
    if |sh| == |shape| then k
    else if sh == [] || |shape| == 0 || shape[|shape| - 1] == 0 then 0
    else k % shape[|shape| - 1]
  }

  lemma ProdOfTwo(a: nat, b: nat)
    ensures Prod([a]) == a && Prod([a, b]) == a * b
  {
    assert [a][1..] == [];
    assert [b][1..] == [];
    assert [a, b][1..] == [b];
    assert Prod([b]) == b;
  }

  /** Element k of a product a * b lies in a column below b, so b is positive. */
  lemma ColumnsPositive(a: nat, b: nat, k: nat)
    requires k < a * b
    ensures b > 0
  {
  }

  /** The element numpy reads lies inside the operand's data. */
  lemma CellIndexInRange(op: Operand, shape: seq<nat>, k: nat)
    requires WellFormed(op) && Fits(op, shape) && |shape| <= 2 && k < Prod(shape)
    requires op.Array? || op.Series? || op.Frame?
    ensures CellIndex(op, shape, k) < op.data.Size()
  {
    var sh := ShapeOf(op);
    var size := op.data.Size();
    assert size == Prod(sh) by {
      match op
      case Array(dims, data) =>
      case Series(index, data) => ProdOfTwo(|index|, 0);
      case Frame(index, columns, data) => ProdOfTwo(|index|, |columns|);
    }
    assert 1 <= |sh|;
    if |sh| == |shape| {
      assert sh == shape;
    } else {
      assert |sh| == 1 && |shape| == 2 && sh == [shape[1]];
      ProdOfTwo(shape[0], shape[1]);
      ProdOfTwo(shape[1], 0);
      ColumnsPositive(shape[0], shape[1], k);
      assert CellIndex(op, shape, k) == k % shape[1];
    }
  }

  /** `ser_or_frame(values, *axes)`: a Series for one axis, a DataFrame for two. */
  function WithAxes(axes: Axes, data: Payload): Operand
    requires 1 <= |axes| <= 2
  {
    if |axes| == 1 then Series(axes[0], data) else Frame(axes[0], axes[1], data)
  }

  /** `.empty` of a Series or DataFrame: some axis has length zero. */
  predicate IsEmpty(op: Operand)
  {
    Prod(ShapeOf(op)) == 0
  }
}
