/**
 * The parts of a pypsa.Network the LP writer touches (pypsa/linopt.py lines 33-76 and
 * 202-300): the open bounds and constraints files, the registries `n.variables` and
 * `n.constraints`, and the reference tables kept per component, time-varying in
 * `n.pnl(c)` and static in `n.df(c)`.
 */
module Networks {
  import opened Wrappers
  import opened Arrays

  /** (component, attribute), the index of `n.variables` and `n.constraints`. */
  type Key = (string, string)

  /** A registry row: whether the references are time-varying, and the specification text. */
  datatype Entry = Entry(pnl: bool, spec: string)

  /** A DataFrame of references in `n.pnl(c)`: column label to its column of names. */
  type Table = map<Label, seq<string>>

  /** A column of `n.df(c)`: row label to the name stored there. */
  type Column = map<Label, string>

  class Network {
    /** Everything written to `n.bounds_f`, one string per write() call. */
    var boundsFile: seq<string>
    /** Everything written to `n.constraints_f`. */
    var constraintsFile: seq<string>
    /** `n.variables`; None once clear_references has deleted it. */
    var variables: Option<map<Key, Entry>>
    /** `n.constraints`; None once clear_references has deleted it. */
    var constraints: Option<map<Key, Entry>>
    /** `n.pnl(c)[name]` under the key (c, name). */
    var timeVarying: map<Key, Table>
    /** `n.df(c)[name]` under the key (c, name). */
    var staticData: map<Key, Column>

    /** A network prepared for writing: empty files, empty registries, no references. */
    constructor ()
      ensures boundsFile == [] && constraintsFile == []
      ensures variables == Some(map[]) && constraints == Some(map[])
      ensures timeVarying == map[] && staticData == map[]
    {
      boundsFile, constraintsFile := [], [];
      variables, constraints := Some(map[]), Some(map[]);
      timeVarying, staticData := map[], map[];
    }

    /** `for s in lines: n.bounds_f.write(s)` */
    method WriteBounds(lines: seq<string>)
      modifies this`boundsFile
      ensures boundsFile == old(boundsFile) + lines
    {
      var i := 0;
      while i < |lines|
        invariant 0 <= i <= |lines|
        invariant boundsFile == old(boundsFile) + lines[..i]
      {
        boundsFile := boundsFile + [lines[i]];
        i := i + 1;
        assert lines[..i] == lines[..i - 1] + [lines[i - 1]];
      }
      assert lines[..i] == lines;
    }

    /** `for c in lines: n.constraints_f.write(c)` */
    method WriteConstraints(lines: seq<string>)
      modifies this`constraintsFile
      ensures constraintsFile == old(constraintsFile) + lines
    {
      var i := 0;
      while i < |lines|
        invariant 0 <= i <= |lines|
        invariant constraintsFile == old(constraintsFile) + lines[..i]
      {
        constraintsFile := constraintsFile + [lines[i]];
        i := i + 1;
        assert lines[..i] == lines[..i - 1] + [lines[i - 1]];
      }
      assert lines[..i] == lines;
    }
  }
}
