/**
 * The pure part of reading solver output back (pypsa/linopt.py lines 347-367 and
 * 402-423): classifying cbc's first solution line, the status and objective fields of
 * glpk's header, and splitting result rows into variables and constraints by the first
 * character of their name.
 */
module SolverOutput {
  import opened Wrappers
  import opened Text
  import opened Tokens

  /** What a reader hands back besides the result rows. */
  datatype Reading = Reading(status: string, condition: string, objective: Option<string>)

  /** The exception a reader raises before it returns. */
  datatype ReadError = UnboundStatus  // `status` is read on a path that never assigned it

  const CbcOptimalPrefix: string := "Optimal - objective value"

  /** `data[len("Optimal - objective value "):]`: what follows the prefix and one more character. */
  function CbcObjectiveText(line: string): string
  {
    if |line| >= |CbcOptimalPrefix| + 1 then line[|CbcOptimalPrefix| + 1..] else ""
  }

  /** The termination condition cbc's first line gives. */
  function CbcCondition(line: string): (tc: string)
    ensures tc == "optimal" <==> StartsWith(line, CbcOptimalPrefix)
    ensures tc == "infeasible" <==> !StartsWith(line, CbcOptimalPrefix) && Contains(line, "Infeasible")
    ensures tc == "other" <==> !StartsWith(line, CbcOptimalPrefix) && !Contains(line, "Infeasible")
  {
    if StartsWith(line, CbcOptimalPrefix) then "optimal"
    else if Contains(line, "Infeasible") then "infeasible"
    else "other"
  }

  /** The objective value cbc prints after the prefix is the text handed to float(). */
  lemma CbcObjectiveOfLine(v: string)
    ensures CbcCondition(CbcOptimalPrefix + " " + v) == "optimal"
    ensures CbcObjectiveText(CbcOptimalPrefix + " " + v) == v
  {
    var line := CbcOptimalPrefix + " " + v;
    assert line[..|CbcOptimalPrefix|] == CbcOptimalPrefix;
    assert line[|CbcOptimalPrefix| + 1..] == v;
  }

  /** run_and_read_cbc up to its early return, as written: only an optimal line gets through. */
  function CbcFirstLineAsWritten(line: string): (r: Result<Reading, ReadError>)
    ensures r.Ok? ==> r.value.condition == CbcCondition(line) && r.value.objective.Some?
  {
    if StartsWith(line, CbcOptimalPrefix) then Ok(Reading("optimal", "optimal", Some(CbcObjectiveText(line))))
    else Err(UnboundStatus)
  }

  /** Every non-optimal solution file makes the reader raise instead of reporting its condition. */
  lemma CbcAsWrittenRaises(line: string)
    ensures CbcFirstLineAsWritten(line).Err? <==> CbcCondition(line) != "optimal"
  {
  }

  /** A concrete infeasible solution file: the as-written reader raises, the corrected one reports. */
  lemma CbcInfeasibleExample()
    ensures CbcFirstLineAsWritten("Infeasible - objective value 0.00000000") == Err(UnboundStatus)
    ensures CbcFirstLine("Infeasible - objective value 0.00000000") == Reading("infeasible", "infeasible", None)
  {
    var line := "Infeasible - objective value 0.00000000";
    assert line[0] != CbcOptimalPrefix[0];
    assert line[..10] == "Infeasible";
    assert StartsWith(line, "Infeasible");
  }

  /**
   * run_and_read_cbc up to its early return, as the other readers do it: the status is the
   * termination condition, and only an optimal line carries an objective.
   */
  function CbcFirstLine(line: string): (r: Reading)
    ensures r.status == r.condition == CbcCondition(line)
    ensures r.objective.Some? <==> r.condition == "optimal"
    ensures CbcFirstLineAsWritten(line).Ok? ==> CbcFirstLineAsWritten(line).value == r
  {
    var tc := CbcCondition(line);
    Reading(tc, tc, if tc == "optimal" then Some(CbcObjectiveText(line)) else None)
  }

  /** The whitespace `str.strip()` removes, as far as ASCII goes. */
  predicate IsSpace(c: char)
  {
    c == ' ' || c == '\t' || c == '\n' || c == '\r' || c == '\U{000B}' || c == '\U{000C}'
  }

  /** `str.lstrip()`: the part after the leading whitespace. */
  function StripLeft(s: string): (r: string)
    ensures |r| <= |s| && r == s[|s| - |r|..]
    ensures |r| > 0 ==> !IsSpace(r[0])
    decreases |s|
  {
    if |s| > 0 && IsSpace(s[0]) then StripLeft(s[1..]) else s
  }

  /** `str.rstrip()`: the part before the trailing whitespace. */
  function StripRight(s: string): (r: string)
    ensures |r| <= |s| && r == s[..|r|]
    ensures |r| > 0 ==> !IsSpace(r[|r| - 1])
    decreases |s|
  {
    if |s| > 0 && IsSpace(s[|s| - 1]) then StripRight(s[..|s| - 1]) else s
  }

  /** `str.strip()` for the whitespace a solution file holds. */
  function Strip(s: string): (r: string)
    ensures |r| > 0 ==> !IsSpace(r[0]) && !IsSpace(r[|r| - 1])
  {
    var left := StripLeft(s);
    var r := StripRight(left);
    assert |r| > 0 ==> r[0] == left[0];
    r
  }

  lemma {:induction false} StripLeftPadded(pre: string, rest: string)
    requires forall i :: 0 <= i < |pre| ==> IsSpace(pre[i])
    requires |rest| > 0 && !IsSpace(rest[0])
    ensures StripLeft(pre + rest) == rest
    decreases |pre|
  {
    if pre == [] {
      assert pre + rest == rest;
    } else {
      assert (pre + rest)[1..] == pre[1..] + rest;
      StripLeftPadded(pre[1..], rest);
    }
  }

  lemma {:induction false} StripRightPadded(rest: string, post: string)
    requires forall i :: 0 <= i < |post| ==> IsSpace(post[i])
    requires |rest| > 0 && !IsSpace(rest[|rest| - 1])
    ensures StripRight(rest + post) == rest
    decreases |post|
  {
    var whole := rest + post;
    if post == [] {
      assert whole == rest;
    } else {
      assert whole[|whole| - 1] == post[|post| - 1];
      assert whole[..|whole| - 1] == rest + post[..|post| - 1];
      StripRightPadded(rest, post[..|post| - 1]);
    }
  }

  /** Whitespace around a value is stripped away and the value is kept whole. */
  lemma StripPadded(pre: string, s: string, post: string)
    requires forall i :: 0 <= i < |pre| ==> IsSpace(pre[i])
    requires forall i :: 0 <= i < |post| ==> IsSpace(post[i])
    requires |s| > 0 && !IsSpace(s[0]) && !IsSpace(s[|s| - 1])
    ensures Strip(pre + s + post) == s
  {
    assert pre + s + post == pre + (s + post);
    StripLeftPadded(pre, s + post);
    StripRightPadded(s, post);
  }

  function LowerChar(c: char): char
  {
    if 'A' <= c <= 'Z' then (c as int - 'A' as int + 'a' as int) as char else c
  }

  /** `str.lower()` on ASCII letters. */
  function Lower(s: string): (r: string)
    ensures |r| == |s|
    ensures forall i :: 0 <= i < |r| ==> !('A' <= r[i] <= 'Z')
  {
    seq(|s|, i requires 0 <= i < |s| => LowerChar(s[i]))
  }

  /** Text with no capital letter is already lower case: `lower()` leaves it alone. */
  lemma LowerOfLower(s: string)
    requires forall i :: 0 <= i < |s| ==> !('A' <= s[i] <= 'Z')
    ensures Lower(s) == s
  {
    assert forall i :: 0 <= i < |s| ==> Lower(s)[i] == LowerChar(s[i]) == s[i];
  }

  /** `lower()` works character by character, so it distributes over concatenation. */
  lemma LowerAppend(a: string, b: string)
    ensures Lower(a + b) == Lower(a) + Lower(b)
  {
    assert forall i :: 0 <= i < |a + b| ==> Lower(a + b)[i] == (Lower(a) + Lower(b))[i] by {
      forall i | 0 <= i < |a + b| ensures Lower(a + b)[i] == (Lower(a) + Lower(b))[i] {
        if i < |a| {
          assert (a + b)[i] == a[i];
        } else {
          assert (a + b)[i] == b[i - |a|];
        }
      }
    }
  }

  /** glpk prints its status in capitals; lower-cased it is the word the reader compares with. */
  lemma LowerOptimal()
    ensures Lower("OPTIMAL") == "optimal"
  {
  }

  /** `lower()` turns no character into whitespace and no whitespace into anything else. */
  lemma LowerKeepsSpace(s: string)
    ensures forall i :: 0 <= i < |s| ==> (IsSpace(Lower(s)[i]) <==> IsSpace(s[i]))
  {
  }

  /** `info.Status.lower().strip()`, which glpk's reader also takes as the termination condition. */
  function GlpkStatus(field: string): (r: string)
    ensures forall i :: 0 <= i < |r| ==> !('A' <= r[i] <= 'Z')
    ensures |r| > 0 ==> !IsSpace(r[0]) && !IsSpace(r[|r| - 1])
  {
    Strip(Lower(field))
  }

  /**
   * A status field of whitespace, a value and whitespace reads as the value lower-cased;
   * in particular a padded `OPTIMAL` reads as `optimal`, and the reader goes on to the rows.
   */
  lemma GlpkStatusOfPadded(pre: string, s: string, post: string)
    requires forall i :: 0 <= i < |pre| ==> IsSpace(pre[i])
    requires forall i :: 0 <= i < |post| ==> IsSpace(post[i])
    requires |s| > 0 && !IsSpace(s[0]) && !IsSpace(s[|s| - 1])
    ensures GlpkStatus(pre + s + post) == Lower(s)
    ensures s == "OPTIMAL" ==> GlpkStatus(pre + s + post) == "optimal"
  {
    LowerAppend(pre + s, post);
    LowerAppend(pre, s);
    LowerOfLower(pre);
    LowerOfLower(post);
    LowerKeepsSpace(s);
    StripPadded(pre, Lower(s), post);
    if s == "OPTIMAL" {
      LowerOptimal();
    }
  }

  /** `re.sub('[^0-9]+', '', field)`: the digits of the field, in order. */
  function DigitsOnly(s: string): (r: string)
    ensures AllDigits(r) && |r| <= |s|
    decreases |s|
  {
    if s == [] then ""
    else (if IsDigit(s[0]) then [s[0]] else "") + DigitsOnly(s[1..])
  }

  lemma {:induction false} DigitsOnlyAppend(a: string, b: string)
    ensures DigitsOnly(a + b) == DigitsOnly(a) + DigitsOnly(b)
    decreases |a|
  {
    if a == [] {
      assert a + b == b;
    } else {
      assert (a + b)[1..] == a[1..] + b;
      DigitsOnlyAppend(a[1..], b);
    }
  }

  /** Signs, points, letters and blanks all vanish. */
  lemma {:induction false} DigitsOnlyOfNonDigits(s: string)
    requires forall i :: 0 <= i < |s| ==> !IsDigit(s[i])
    ensures DigitsOnly(s) == ""
    decreases |s|
  {
    if s != [] {
      DigitsOnlyOfNonDigits(s[1..]);
    }
  }

  /** The text after the first `c` of `s` (all of it when there is none). */
  function After(s: string, c: char): string
    decreases |s|
  {
    if s == [] then ""
    else if s[0] == c then s[1..]
    else After(s[1..], c)
  }

  /** The text before the first `c` of `s` (all of it when there is none). */
  function Before(s: string, c: char): string
    decreases |s|
  {
    if s == [] || s[0] == c then "" else [s[0]] + Before(s[1..], c)
  }

  lemma {:induction false} AfterFirst(pre: string, c: char, post: string)
    requires forall i :: 0 <= i < |pre| ==> pre[i] != c
    ensures After(pre + [c] + post, c) == post
    decreases |pre|
  {
    if pre == [] {
      assert (pre + [c] + post)[1..] == post;
    } else {
      assert (pre + [c] + post)[1..] == pre[1..] + [c] + post;
      AfterFirst(pre[1..], c, post);
    }
  }

  lemma {:induction false} BeforeFirst(pre: string, c: char, post: string)
    requires forall i :: 0 <= i < |pre| ==> pre[i] != c
    ensures Before(pre + [c] + post, c) == pre
    decreases |pre|
  {
    if pre == [] {
      assert (pre + [c] + post)[0] == c;
    } else {
      assert (pre + [c] + post)[1..] == pre[1..] + [c] + post;
      BeforeFirst(pre[1..], c, post);
    }
  }

  /** `re.sub('[^0-9]+', '', info.Objective)`, the objective text the glpk reader hands to float(). */
  function GlpkObjectiveAsWritten(field: string): (r: string)
    ensures AllDigits(r) && |r| <= |field|
  {
    DigitsOnly(field)
  }

  /** The objective value of glpk's `name = value (sense)` field: between '=' and '(', stripped. */
  function GlpkObjective(field: string): (r: string)
    ensures |r| > 0 ==> !IsSpace(r[0]) && !IsSpace(r[|r| - 1])
  {
    Strip(Before(After(field, '='), '('))
  }

  /** The corrected reader gets back exactly the value glpk printed. */
  lemma GlpkObjectiveRoundTrip(name: string, v: string, sense: string)
    requires forall i :: 0 <= i < |name| ==> name[i] != '='
    requires forall i :: 0 <= i < |v| ==> v[i] != '('
    requires |v| > 0 && !IsSpace(v[0]) && !IsSpace(v[|v| - 1])
    ensures GlpkObjective(name + "= " + v + " (" + sense + ")") == v
  {
    var field := name + "= " + v + " (" + sense + ")";
    assert field == name + ['='] + (" " + v + " (" + sense + ")");
    AfterFirst(name, '=', " " + v + " (" + sense + ")");
    var middle := " " + v + " ";
    assert forall i :: 0 <= i < |middle| ==> middle[i] != '(' by {
      forall i | 0 <= i < |middle| ensures middle[i] != '(' {
        if 0 < i < |middle| - 1 {
          assert middle[i] == v[i - 1];
        }
      }
    }
    assert " " + v + " (" + sense + ")" == middle + ['('] + (sense + ")");
    BeforeFirst(middle, '(', sense + ")");
    StripPadded(" ", v, " ");
  }

  lemma {:induction false} DigitsOnlyOfDigits(s: string)
    requires AllDigits(s)
    ensures DigitsOnly(s) == s
    decreases |s|
  {
    if s != [] {
      DigitsOnlyOfDigits(s[1..]);
    }
  }

  /** The non-digit parts of a glpk objective field: its name with "= -", and " (sense)". */
  lemma ObjectiveFieldFrame(name: string, sense: string)
    requires forall i :: 0 <= i < |name| ==> !IsDigit(name[i])
    requires forall i :: 0 <= i < |sense| ==> !IsDigit(sense[i])
    ensures DigitsOnly(name + "= -") == "" && DigitsOnly(" (" + sense + ")") == "" && DigitsOnly(".") == ""
  {
    var pre, post := name + "= -", " (" + sense + ")";
    forall i | 0 <= i < |pre| ensures !IsDigit(pre[i]) {
      if i < |name| {
        assert pre[i] == name[i];
      }
    }
    forall i | 0 <= i < |post| ensures !IsDigit(post[i]) {
      if 2 <= i < |post| - 1 {
        assert post[i] == sense[i - 2];
      }
    }
    DigitsOnlyOfNonDigits(pre);
    DigitsOnlyOfNonDigits(".");
    DigitsOnlyOfNonDigits(post);
  }

  /**
   * A negative, fractional objective `name = -a.b (sense)`: the as-written reader keeps
   * only the digits `ab`, losing sign and point.
   */
  lemma GlpkObjectiveLosesSignAndPoint(name: string, a: string, b: string, sense: string)
    requires forall i :: 0 <= i < |name| ==> !IsDigit(name[i])
    requires forall i :: 0 <= i < |sense| ==> !IsDigit(sense[i])
    requires AllDigits(a) && AllDigits(b)
    ensures GlpkObjectiveAsWritten(name + "= -" + a + "." + b + " (" + sense + ")") == a + b
  {
    var pre, post := name + "= -", " (" + sense + ")";
    assert name + "= -" + a + "." + b + " (" + sense + ")" == pre + a + "." + b + post;
    DigitsOnlyAppend(pre + a + "." + b, post);
    DigitsOnlyAppend(pre + a + ".", b);
    DigitsOnlyAppend(pre + a, ".");
    DigitsOnlyAppend(pre, a);
    ObjectiveFieldFrame(name, sense);
    DigitsOnlyOfDigits(a);
    DigitsOnlyOfDigits(b);
  }

  /** The corrected reader returns the same field's value with its sign and point. */
  lemma GlpkObjectiveKeepsSignAndPoint(name: string, a: string, b: string, sense: string)
    requires forall i :: 0 <= i < |name| ==> name[i] != '='
    requires AllDigits(a) && AllDigits(b) && |b| > 0
    ensures GlpkObjective(name + "= -" + a + "." + b + " (" + sense + ")") == "-" + a + "." + b
  {
    var v := "-" + a + "." + b;
    forall i | 0 <= i < |v| ensures v[i] != '(' {
      if 1 <= i < 1 + |a| {
        assert v[i] == a[i - 1];
      } else if 1 + |a| < i {
        assert v[i] == b[i - 2 - |a|];
      }
    }
    assert v[|v| - 1] == b[|b| - 1];
    assert name + "= " + v + " (" + sense + ")" == name + "= -" + a + "." + b + " (" + sense + ")";
    GlpkObjectiveRoundTrip(name, v, sense);
  }

  /** One row of a solution file: its name, its value and its dual value. */
  datatype Row = Row(name: string, primal: string, dual: string)

  /** `sol.index.str[0] == 'x'`: an empty name has no first character and is no variable. */
  predicate IsVariableRow(r: Row)
  {
    |r.name| > 0 && r.name[0] == 'x'
  }

  /** `sol.index.str[0] == 'c'` */
  predicate IsConstraintRow(r: Row)
  {
    |r.name| > 0 && r.name[0] == 'c'
  }

  /** `sol[variables_b]`: the variable rows' names and values, in file order. */
  function Primals(rows: seq<Row>): (r: seq<(string, string)>)
    ensures |r| <= |rows|
    ensures forall p :: p in r ==> |p.0| > 0 && p.0[0] == 'x'
    decreases |rows|
  {
    if rows == [] then []
    else (if IsVariableRow(rows[0]) then [(rows[0].name, rows[0].primal)] else []) + Primals(rows[1..])
  }

  /** cbc's `sol[~variables_b]`: every other row's name and dual value. */
  function CbcDuals(rows: seq<Row>): (r: seq<(string, string)>)
    ensures |r| <= |rows|
    ensures forall p :: p in r ==> p.0 == "" || p.0[0] != 'x'
    decreases |rows|
  {
    if rows == [] then []
    else (if !IsVariableRow(rows[0]) then [(rows[0].name, rows[0].dual)] else []) + CbcDuals(rows[1..])
  }

  /** glpk's duals: of the rows that are not variables, those whose name starts with 'c'. */
  function GlpkDuals(rows: seq<Row>): (r: seq<(string, string)>)
    ensures |r| <= |rows|
    ensures forall p :: p in r ==> |p.0| > 0 && p.0[0] == 'c'
    decreases |rows|
  {
    if rows == [] then []
    else (if !IsVariableRow(rows[0]) && IsConstraintRow(rows[0]) then [(rows[0].name, rows[0].dual)] else [])
         + GlpkDuals(rows[1..])
  }

  /** A (name, dual) pair is among cbc's duals exactly when a row that is no variable carries it. */
  lemma {:induction false} CbcDualsMembership(rows: seq<Row>, name: string, d: string)
    ensures (name, d) in CbcDuals(rows) <==>
      exists i :: 0 <= i < |rows| && rows[i] == Row(name, rows[i].primal, d) && !IsVariableRow(rows[i])
    decreases |rows|
  {
    if rows != [] {
      CbcDualsMembership(rows[1..], name, d);
      if (name, d) in CbcDuals(rows[1..]) {
        var i :| 0 <= i < |rows[1..]| && rows[1..][i] == Row(name, rows[1..][i].primal, d) && !IsVariableRow(rows[1..][i]);
        assert rows[i + 1] == rows[1..][i];
      }
      if exists i :: 0 <= i < |rows| && rows[i] == Row(name, rows[i].primal, d) && !IsVariableRow(rows[i]) {
        var i :| 0 <= i < |rows| && rows[i] == Row(name, rows[i].primal, d) && !IsVariableRow(rows[i]);
        if i > 0 {
          assert rows[1..][i - 1] == rows[i];
        }
      }
    }
  }

  /** A (name, dual) pair is among glpk's duals exactly when a `c` row that is no variable carries it. */
  lemma {:induction false} GlpkDualsMembership(rows: seq<Row>, name: string, d: string)
    ensures (name, d) in GlpkDuals(rows) <==>
      exists i :: 0 <= i < |rows| && rows[i] == Row(name, rows[i].primal, d) && !IsVariableRow(rows[i]) && IsConstraintRow(rows[i])
    decreases |rows|
  {
    if rows != [] {
      GlpkDualsMembership(rows[1..], name, d);
      if (name, d) in GlpkDuals(rows[1..]) {
        var i :| 0 <= i < |rows[1..]| && rows[1..][i] == Row(name, rows[1..][i].primal, d)
          && !IsVariableRow(rows[1..][i]) && IsConstraintRow(rows[1..][i]);
        assert rows[i + 1] == rows[1..][i];
      }
      if exists i :: 0 <= i < |rows| && rows[i] == Row(name, rows[i].primal, d) && !IsVariableRow(rows[i]) && IsConstraintRow(rows[i]) {
        var i :| 0 <= i < |rows| && rows[i] == Row(name, rows[i].primal, d) && !IsVariableRow(rows[i]) && IsConstraintRow(rows[i]);
        if i > 0 {
          assert rows[1..][i - 1] == rows[i];
        }
      }
    }
  }

  /**
   * cbc's split puts every row on exactly one side: a variable row's value among the
   * primals, every other row's dual value among the duals.
   */
  lemma {:induction false} CbcSplitIsPartition(rows: seq<Row>)
    ensures |Primals(rows)| + |CbcDuals(rows)| == |rows|
    ensures forall i :: 0 <= i < |rows| && IsVariableRow(rows[i]) ==> (rows[i].name, rows[i].primal) in Primals(rows)
    ensures forall i :: 0 <= i < |rows| && !IsVariableRow(rows[i]) ==> (rows[i].name, rows[i].dual) in CbcDuals(rows)
    decreases |rows|
  {
    if rows != [] {
      CbcSplitIsPartition(rows[1..]);
      forall i | 1 <= i < |rows| ensures rows[i] == rows[1..][i - 1] {
      }
    }
  }

  /** A (name, value) pair is among the primals exactly when a variable row carries it. */
  lemma {:induction false} PrimalsMembership(rows: seq<Row>, name: string, v: string)
    ensures (name, v) in Primals(rows) <==>
      exists i :: 0 <= i < |rows| && rows[i] == Row(name, v, rows[i].dual) && IsVariableRow(rows[i])
    decreases |rows|
  {
    if rows != [] {
      PrimalsMembership(rows[1..], name, v);
      if (name, v) in Primals(rows[1..]) {
        var i :| 0 <= i < |rows[1..]| && rows[1..][i] == Row(name, v, rows[1..][i].dual) && IsVariableRow(rows[1..][i]);
        assert rows[i + 1] == rows[1..][i];
      }
      if exists i :: 0 <= i < |rows| && rows[i] == Row(name, v, rows[i].dual) && IsVariableRow(rows[i]) {
        var i :| 0 <= i < |rows| && rows[i] == Row(name, v, rows[i].dual) && IsVariableRow(rows[i]);
        if i > 0 {
          assert rows[1..][i - 1] == rows[i];
        }
      }
    }
  }

  /** glpk keeps only the constraint rows, so it reports no more duals than cbc would. */
  lemma {:induction false} GlpkDualsWithinCbc(rows: seq<Row>)
    ensures |GlpkDuals(rows)| <= |CbcDuals(rows)|
    ensures forall p :: p in GlpkDuals(rows) ==> p in CbcDuals(rows)
    decreases |rows|
  {
    if rows != [] {
      GlpkDualsWithinCbc(rows[1..]);
    }
  }

  /** The names the writers hand out land on the right side: `x…` as variables, `c…` as constraints. */
  lemma WrittenNamesClassified(k: nat, primal: string, dual: string)
    ensures IsVariableRow(Row(TokenText(Variable, k), primal, dual))
    ensures !IsVariableRow(Row(TokenText(Constraint, k), primal, dual))
    ensures IsConstraintRow(Row(TokenText(Constraint, k), primal, dual))
  {
  }
}
