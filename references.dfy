/**
 * The reference tables (pypsa/linopt.py lines 202-300): set_varref and set_conref register
 * (component, attribute) with its kind and specification and store the frame or series of
 * names; get_var and get_con look them up again; clear_references drops them.
 */
module References {
  import opened Wrappers
  import opened Arrays
  import opened Text
  import opened Tokens
  import opened Networks

  /** `var_ref_suffix` */
  const VarRefSuffix: string := "_varref"
  /** `con_ref_suffix` */
  const ConRefSuffix: string := "_conref"

  function Suffix(kind: Kind): string
  {
    if kind == Variable then VarRefSuffix else ConRefSuffix
  }

  /** `n.variables` for variables, `n.constraints` for constraints. */
  function Registry(n: Network, kind: Kind): Option<map<Key, Entry>>
    reads n
  {
    if kind == Variable then n.variables else n.constraints
  }

  /**
   * One registration: a non-empty specification for a key already present is appended
   * after ", " (the pnl flag stays as it was); otherwise the row becomes [pnl, spec].
   */
  function Register(table: map<Key, Entry>, key: Key, pnl: bool, spec: string): (r: map<Key, Entry>)
    ensures r.Keys == table.Keys + {key}
    ensures forall k :: k in table && k != key ==> r[k] == table[k]
  {
    if key in table && spec != "" then table[key := Entry(table[key].pnl, table[key].spec + ", " + spec)]
    else table[key := Entry(pnl, spec)]
  }

  /** Several registrations of one key, in order. */
  function RegisterAll(table: map<Key, Entry>, key: Key, pnl: bool, specs: seq<string>): map<Key, Entry>
    decreases |specs|
  {
    if specs == [] then table
    else Register(RegisterAll(table, key, pnl, specs[..|specs| - 1]), key, pnl, specs[|specs| - 1])
  }

  /** `', '.join(specs)` */
  function CommaJoined(specs: seq<string>): string
    decreases |specs|
  {
    if specs == [] then ""
    else if |specs| == 1 then specs[0]
    else CommaJoined(specs[..|specs| - 1]) + ", " + specs[|specs| - 1]
  }

  /**
   * A key registered fresh and then again with non-empty specifications ends up with all
   * of them, comma-separated, in call order.
   */
  lemma {:induction false} RegisterAllJoins(table: map<Key, Entry>, key: Key, pnl: bool, specs: seq<string>)
    requires key !in table && |specs| > 0
    requires forall i :: 0 < i < |specs| ==> specs[i] != ""
    ensures key in RegisterAll(table, key, pnl, specs)
    ensures RegisterAll(table, key, pnl, specs)[key] == Entry(pnl, CommaJoined(specs))
    decreases |specs|
  {
    var front := specs[..|specs| - 1];
    if |specs| > 1 {
      RegisterAllJoins(table, key, pnl, front);
    } else {
      assert front == [];
    }
  }

  /** An empty specification rewrites the row, whatever was there. */
  lemma RegisterEmptySpec(table: map<Key, Entry>, key: Key, pnl: bool)
    ensures Register(table, key, pnl, "")[key] == Entry(pnl, "")
  {
  }

  /** Column `j` of a DataFrame of names, top to bottom. */
  function ColumnOf(df: Operand, j: nat): (col: seq<string>)
    requires df.Frame? && WellFormed(df) && df.data.Objects? && j < |df.columns|
    ensures |col| == |df.index|
  {
    var rows, cols := |df.index|, |df.columns|;
    seq(rows, i requires 0 <= i < rows => FlatInRange(i, j, rows, cols); df.data.items[i * cols + j])
  }

  lemma FlatInRange(i: nat, j: nat, rows: nat, cols: nat)
    requires i < rows && j < cols
    ensures i * cols + j < rows * cols
  {
    assert i * cols + j < (i + 1) * cols;
    assert (i + 1) * cols <= rows * cols;
  }

  /** A DataFrame of names as a table: each column label to its column. */
  function FrameTable(df: Operand): (t: Table)
    requires df.Frame? && WellFormed(df) && UniqueLabels(df) && df.data.Objects?
    ensures t.Keys == set j | 0 <= j < |df.columns| :: df.columns[j]
    ensures forall j :: 0 <= j < |df.columns| ==> t[df.columns[j]] == ColumnOf(df, j)
  {
    map j | 0 <= j < |df.columns| :: df.columns[j] := ColumnOf(df, j)
  }

  /** A Series of names as a column: each row label to its name. */
  function SeriesColumn(df: Operand): (col: Column)
    requires df.Series? && WellFormed(df) && UniqueLabels(df) && df.data.Objects?
    ensures col.Keys == set i | 0 <= i < |df.index| :: df.index[i]
    ensures forall i :: 0 <= i < |df.index| ==> col[df.index[i]] == df.data.items[i]
  {
    map i | 0 <= i < |df.index| :: df.index[i] := df.data.items[i]
  }

  /**
   * `n.pnl(c)[name][df.columns] = df`, or a new table: the frame's columns are written
   * over, every other column and every other table stays.
   */
  function StoreTimeVarying(tables: map<Key, Table>, key: Key, df: Operand): (r: map<Key, Table>)
    requires df.Frame? && WellFormed(df) && UniqueLabels(df) && df.data.Objects?
    ensures r.Keys == tables.Keys + {key}
    ensures forall k :: k in tables && k != key ==> r[k] == tables[k]
    ensures forall j :: 0 <= j < |df.columns| ==> df.columns[j] in r[key] && r[key][df.columns[j]] == ColumnOf(df, j)
    ensures key in tables ==> forall l :: l in tables[key] && l !in df.columns ==> l in r[key] && r[key][l] == tables[key][l]
  {
    tables[key := (if key in tables then tables[key] else map[]) + FrameTable(df)]
  }

  /** `n.df(c).loc[df.index, name] = df`: the series' rows are written, other rows stay. */
  function StoreStatic(columns: map<Key, Column>, key: Key, df: Operand): (r: map<Key, Column>)
    requires df.Series? && WellFormed(df) && UniqueLabels(df) && df.data.Objects?
    ensures r.Keys == columns.Keys + {key}
    ensures forall k :: k in columns && k != key ==> r[k] == columns[k]
    ensures forall i :: 0 <= i < |df.index| ==> df.index[i] in r[key] && r[key][df.index[i]] == df.data.items[i]
    ensures key in columns ==> forall l :: l in columns[key] && l !in df.index ==> l in r[key] && r[key][l] == columns[key][l]
  {
    columns[key := (if key in columns then columns[key] else map[]) + SeriesColumn(df)]
  }

  /**
   * set_varref (kind Variable) and set_conref (kind Constraint): an empty frame or series
   * changes nothing; otherwise the registry row is written and `_add_reference` stores the
   * names under attribute + suffix, time-varying for pnl, static otherwise.
   */
  method SetRef(n: Network, kind: Kind, refs: Operand, c: string, attr: string, pnl: bool, spec: string)
    returns (r: Outcome<LpError>)
    requires WellFormed(refs) && UniqueLabels(refs) && IsLabelled(refs) && refs.data.Objects?
    requires pnl == refs.Frame?
    modifies n`variables, n`constraints, n`timeVarying, n`staticData
    ensures IsEmpty(refs) || old(Registry(n, kind)).None? ==>
      && r == (if IsEmpty(refs) then Pass else Fail(TableMissing))
      && n.variables == old(n.variables) && n.constraints == old(n.constraints)
      && n.timeVarying == old(n.timeVarying) && n.staticData == old(n.staticData)
    ensures !IsEmpty(refs) && old(Registry(n, kind)).Some? ==>
      && r == Pass
      && Registry(n, kind) == Some(Register(old(Registry(n, kind)).value, (c, attr), pnl, spec))
      && (kind == Variable ==> n.constraints == old(n.constraints))
      && (kind == Constraint ==> n.variables == old(n.variables))
      && (pnl ==> n.timeVarying == StoreTimeVarying(old(n.timeVarying), (c, attr + Suffix(kind)), refs)
                  && n.staticData == old(n.staticData))
      && (!pnl ==> n.staticData == StoreStatic(old(n.staticData), (c, attr + Suffix(kind)), refs)
                   && n.timeVarying == old(n.timeVarying))
  {
    if IsEmpty(refs) {
      return Pass;
    }
    var registry := Registry(n, kind);
    if registry.None? {
      return Fail(TableMissing);
    }
    var table := Register(registry.value, (c, attr), pnl, spec);
    if kind == Variable {
      n.variables := Some(table);
    } else {
      n.constraints := Some(table);
    }
    var name := (c, attr + Suffix(kind));
    if pnl {
      n.timeVarying := StoreTimeVarying(n.timeVarying, name, refs);
    } else {
      n.staticData := StoreStatic(n.staticData, name, refs);
    }
    r := Pass;
  }

  /** What get_var and get_con return: a table of `n.pnl(c)` or a column of `n.df(c)`. */
  datatype Reference = TimeVarying(table: Table) | Static(column: Column)

  /**
   * The lookup of get_var / get_con: the registry row decides where to look, and the stored
   * references are found under attribute + suffix.
   */
  function Lookup(registry: Option<map<Key, Entry>>, tables: map<Key, Table>, columns: map<Key, Column>,
                  kind: Kind, c: string, attr: string): (r: Result<Reference, LpError>)
    ensures r == Err(TableMissing) <==> registry.None?
    ensures r == Err(NotRegistered) <==> registry.Some? && (c, attr) !in registry.value
    ensures r.Ok? ==>
      && registry.Some? && (c, attr) in registry.value
      && (r.value.TimeVarying? <==> registry.value[(c, attr)].pnl)
      && (r.value.TimeVarying? ==> (c, attr + Suffix(kind)) in tables && r.value.table == tables[(c, attr + Suffix(kind))])
      && (r.value.Static? ==> (c, attr + Suffix(kind)) in columns && r.value.column == columns[(c, attr + Suffix(kind))])
  {
    if registry.None? then Err(TableMissing)
    else if (c, attr) !in registry.value then Err(NotRegistered)
    else
      var name := (c, attr + Suffix(kind));
      if registry.value[(c, attr)].pnl then
        (if name in tables then Ok(TimeVarying(tables[name])) else Err(NotStored))
      else
        (if name in columns then Ok(Static(columns[name])) else Err(NotStored))
  }

  /** get_var (kind Variable) and get_con (kind Constraint); with `pop` the found entry is removed. */
  method GetRef(n: Network, kind: Kind, c: string, attr: string, pop: bool) returns (r: Result<Reference, LpError>)
    modifies n`timeVarying, n`staticData
    ensures r == Lookup(Registry(n, kind), old(n.timeVarying), old(n.staticData), kind, c, attr)
    ensures n.timeVarying == (if pop && r.Ok? && r.value.TimeVarying? then old(n.timeVarying) - {(c, attr + Suffix(kind))}
                              else old(n.timeVarying))
    ensures n.staticData == (if pop && r.Ok? && r.value.Static? then old(n.staticData) - {(c, attr + Suffix(kind))}
                             else old(n.staticData))
  {
    r := Lookup(Registry(n, kind), n.timeVarying, n.staticData, kind, c, attr);
    if pop && r.Ok? {
      var name := (c, attr + Suffix(kind));
      if r.value.TimeVarying? {
        n.timeVarying := n.timeVarying - {name};
      } else {
        n.staticData := n.staticData - {name};
      }
    }
  }

  /**
   * After a registration whose row keeps the flag it was given, the lookup finds the
   * stored references: every column (or row) of the frame (or series) just stored.
   */
  lemma LookupAfterSet(table: map<Key, Entry>, tables: map<Key, Table>, columns: map<Key, Column>,
                       kind: Kind, refs: Operand, c: string, attr: string, pnl: bool, spec: string)
    requires WellFormed(refs) && UniqueLabels(refs) && IsLabelled(refs) && refs.data.Objects? && pnl == refs.Frame?
    requires (c, attr) in table && spec != "" ==> table[(c, attr)].pnl == pnl
    ensures var registry := Some(Register(table, (c, attr), pnl, spec));
      var name := (c, attr + Suffix(kind));
      if pnl then
        var found := Lookup(registry, StoreTimeVarying(tables, name, refs), columns, kind, c, attr);
        found.Ok? && found.value.TimeVarying? &&
        forall j :: 0 <= j < |refs.columns| ==> found.value.table[refs.columns[j]] == ColumnOf(refs, j)
      else
        var found := Lookup(registry, tables, StoreStatic(columns, name, refs), kind, c, attr);
        found.Ok? && found.value.Static? &&
        forall i :: 0 <= i < |refs.index| ==> found.value.column[refs.index[i]] == refs.data.items[i]
  {
  }

  /** Once popped, the same reference is not found again. */
  lemma LookupAfterPop(registry: Option<map<Key, Entry>>, tables: map<Key, Table>, columns: map<Key, Column>,
                       kind: Kind, c: string, attr: string)
    requires Lookup(registry, tables, columns, kind, c, attr).Ok?
    ensures var name := (c, attr + Suffix(kind));
      Lookup(registry, tables - {name}, columns - {name}, kind, c, attr) == Err(NotStored)
  {
  }

  /** The names clear_references drops: those containing either suffix. */
  predicate IsReferenceName(name: string)
  {
    Contains(name, ConRefSuffix) || Contains(name, VarRefSuffix)
  }

  /** Python's `-(b)` of a bool: the int 0 or -1, true exactly when non-zero. */
  function Negated(b: bool): int
  {
    if b then -1 else 0
  }

  /** The test as written: `(con_ref_suffix in k) or -(var_ref_suffix in k)`. */
  predicate ClearTest(name: string)
    ensures ClearTest(name) <==> IsReferenceName(name)
  {
    Contains(name, ConRefSuffix) || Negated(Contains(name, VarRefSuffix)) != 0
  }

  /**
   * clear_references: drops every time-varying table whose name holds a reference suffix
   * and deletes both registries.  Static columns are left in place.
   */
  method ClearReferences(n: Network)
    modifies n`timeVarying, n`variables, n`constraints
    ensures n.timeVarying == map k | k in old(n.timeVarying) && !IsReferenceName(k.1) :: old(n.timeVarying)[k]
    ensures n.variables.None? && n.constraints.None?
  {
    var keys := n.timeVarying.Keys;
    ghost var start := n.timeVarying;
    while keys != {}
      invariant keys <= start.Keys && n.timeVarying.Keys <= start.Keys
      invariant forall k :: k in keys ==> k in n.timeVarying
      invariant forall k :: k in start && k !in keys ==> (k in n.timeVarying <==> !IsReferenceName(k.1))
      invariant forall k :: k in n.timeVarying ==> n.timeVarying[k] == start[k]
      decreases |keys|
    {
      var k :| k in keys;
      if ClearTest(k.1) {
        n.timeVarying := n.timeVarying - {k};
      }
      keys := keys - {k};
    }
    n.variables := None;
    n.constraints := None;
  }

  /** Everything set_varref and set_conref store in `n.pnl(c)` is dropped by clear_references. */
  lemma StoredNamesAreCleared(kind: Kind, attr: string)
    ensures IsReferenceName(attr + Suffix(kind))
  {
    ContainsSuffix(attr, Suffix(kind));
  }
}
