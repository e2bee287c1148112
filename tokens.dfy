/**
 * Token allocation (pypsa/linopt.py lines 27-31, 48-52 and 72-76): the module-level
 * counters xCounter and cCounter, the names `x{k}` and `c{k}` minted from them, and
 * reset_counter.
 */
module Tokens {
  import opened Wrappers
  import opened Arrays

  datatype Kind = Variable | Constraint

  /** The letter in front of every token of the kind. */
  function Prefix(kind: Kind): char
  {
    if kind == Variable then 'x' else 'c'
  }

  predicate IsDigit(c: char)
  {
    '0' <= c <= '9'
  }

  predicate AllDigits(s: string)
  {
    forall i :: 0 <= i < |s| ==> IsDigit(s[i])
  }

  function DigitChar(d: nat): (c: char)
    requires d < 10
    ensures IsDigit(c)
  {
    ('0' as int + d) as char
  }

  function DigitValue(c: char): nat
    requires IsDigit(c)
  {
    c as int - '0' as int
  }

  /** `str(n)` for a non-negative integer: its decimal digits, most significant first. */
  function Decimal(n: nat): (s: string)
    ensures |s| > 0 && AllDigits(s)
    ensures n >= 10 ==> |s| >= 2
  {
    if n < 10 then [DigitChar(n)] else Decimal(n / 10) + [DigitChar(n % 10)]
  }

  /** `int(s)` for a string of decimal digits. */
  function ParseDecimal(s: string): nat
    requires AllDigits(s)
  {
    if s == [] then 0 else ParseDecimal(s[..|s| - 1]) * 10 + DigitValue(s[|s| - 1])
  }

  /** Reading the digits back gives the number: `int(str(n)) == n`. */
  lemma {:induction false} ParseDecimalOfDecimal(n: nat)
    ensures ParseDecimal(Decimal(n)) == n
  {
    var s := Decimal(n);
    if n >= 10 {
      assert s[..|s| - 1] == Decimal(n / 10);
      ParseDecimalOfDecimal(n / 10);
    } else {
      assert s[..|s| - 1] == [];
    }
  }

  /** `f'x{k}'` or `f'c{k}'` */
  function TokenText(kind: Kind, k: nat): string
  {
    [Prefix(kind)] + Decimal(k)
  }

  /** Reads a token back into its kind and number. */
  function ParseToken(t: string): Option<(Kind, nat)>
  {
    if |t| < 2 || !AllDigits(t[1..]) then None
    else if t[0] == 'x' then Some((Variable, ParseDecimal(t[1..])))
    else if t[0] == 'c' then Some((Constraint, ParseDecimal(t[1..])))
    else None
  }

  lemma ParseTokenText(kind: Kind, k: nat)
    ensures ParseToken(TokenText(kind, k)) == Some((kind, k))
  {
    var t := TokenText(kind, k);
    assert t[1..] == Decimal(k);
    ParseDecimalOfDecimal(k);
  }

  /** Two tokens are the same text exactly when they have the same kind and number. */
  lemma TokenTextInjective(kind1: Kind, k1: nat, kind2: Kind, k2: nat)
    ensures TokenText(kind1, k1) == TokenText(kind2, k2) <==> kind1 == kind2 && k1 == k2
  {
    ParseTokenText(kind1, k1);
    ParseTokenText(kind2, k2);
  }

  /** `[f'x{i}' for i in range(start, start + length)]` (or `c`): the tokens of one write. */
  function Block(kind: Kind, start: nat, length: nat): (b: seq<string>)
    ensures |b| == length
  {
    seq(length, i requires 0 <= i < length => TokenText(kind, start + i))
  }

  /** The tokens of one write are pairwise distinct. */
  lemma BlockDistinct(kind: Kind, start: nat, length: nat)
    ensures forall i, j :: 0 <= i < j < length ==> Block(kind, start, length)[i] != Block(kind, start, length)[j]
  {
    forall i, j | 0 <= i < j < length
      ensures Block(kind, start, length)[i] != Block(kind, start, length)[j]
    {
      TokenTextInjective(kind, start + i, kind, start + j);
    }
  }

  /**
   * Two writes made one after the other from the same counter share no token, and a
   * variable token never equals a constraint token.
   */
  lemma BlocksDisjoint(kind1: Kind, start1: nat, length1: nat, kind2: Kind, start2: nat, length2: nat)
    requires kind1 != kind2 || start1 + length1 <= start2
    ensures forall i, j :: 0 <= i < length1 && 0 <= j < length2 ==>
      Block(kind1, start1, length1)[i] != Block(kind2, start2, length2)[j]
  {
    forall i, j | 0 <= i < length1 && 0 <= j < length2
      ensures Block(kind1, start1, length1)[i] != Block(kind2, start2, length2)[j]
    {
      TokenTextInjective(kind1, start1 + i, kind2, start2 + j);
    }
  }

  /**
   * The two module-level counters.  Python turns a counter into a float when a write adds
   * np.prod(()) == 1.0 to it; from then on every range() over it raises, until
   * reset_counter.  The flags record that.
   */
  class Counters {
    var xCounter: nat
    var cCounter: nat
    var xIsFloat: bool
    var cIsFloat: bool

    function Count(kind: Kind): nat
      reads this
    {
      if kind == Variable then xCounter else cCounter
    }

    function IsFloat(kind: Kind): bool
      reads this
    {
      if kind == Variable then xIsFloat else cIsFloat
    }

    /** The state at import: `xCounter = 0`, `cCounter = 0`. */
    constructor ()
      ensures xCounter == 0 && cCounter == 0 && !xIsFloat && !cIsFloat
    {
      xCounter, cCounter := 0, 0;
      xIsFloat, cIsFloat := false, false;
    }

    /** reset_counter */
    method Reset()
      modifies this
      ensures xCounter == 0 && cCounter == 0 && !xIsFloat && !cIsFloat
    {
      xCounter, cCounter := 0, 0;
      xIsFloat, cIsFloat := false, false;
    }

    /**
     * `counter += np.prod(shape)` followed by the token list over
     * `range(counter - length, counter)`; None where range() raises because the count is a
     * float.
     */
    method Allocate(kind: Kind, shape: seq<nat>) returns (tokens: Option<seq<string>>)
      modifies this
      ensures Count(kind) == old(Count(kind)) + Prod(shape)
      ensures IsFloat(kind) == (old(IsFloat(kind)) || shape == [])
      ensures kind == Variable ==> cCounter == old(cCounter) && cIsFloat == old(cIsFloat)
      ensures kind == Constraint ==> xCounter == old(xCounter) && xIsFloat == old(xIsFloat)
      ensures tokens == if IsFloat(kind) then None else Some(Block(kind, old(Count(kind)), Prod(shape)))
    {
      var length := Prod(shape);
      var start := Count(kind);
      if kind == Variable {
        xCounter := xCounter + length;
        xIsFloat := xIsFloat || shape == [];
      } else {
        cCounter := cCounter + length;
        cIsFloat := cIsFloat || shape == [];
      }
      if IsFloat(kind) {
        tokens := None;
      } else {
        tokens := Some(Block(kind, start, length));
      }
    }
  }
}
