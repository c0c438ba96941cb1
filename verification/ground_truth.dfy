/**
 * The ground-truth (GND) table: its version stamp, the tolerance query the
 * service builds from a request, the scan of the rows that query returns,
 * the decoding of a stored request row, and the row-equivalence clauses
 * the prototype uses to compare two databases.
 *
 * GND row layout: columns 0..8 hold the request (temperature, four
 * densities, four charges), column 9 the input version, columns 10..21
 * the outputs (viscosity, conductivity, ten diffusion coefficients) and
 * column 22 the output version.
 */
module GroundTruth {
  import opened Fallible
  import opened Text
  import opened GlueTypes
  import opened Sql

  /** Version stamp of BGK ground truth; rows with another stamp are never used. */
  const BgkVersion: real := 2.2

  /** `getGroundishTruthVersion`. */
  function GroundTruthVersion(packet: SolverCode): (v: Result<real>)
    ensures v.Ok? <==> packet in {Bgk, BgkMasses}
    ensures packet == Bgk ==> v == Ok(BgkVersion)
    ensures v.Ok? && packet != Bgk ==> v.value != BgkVersion
  {
    match packet
    case Bgk => Ok(2.2)
    case BgkMasses => Ok(1.0)
    case LbmZeroD => Err("Using Unsupported Solver Code")
  }

  function SpeciesColumn(prefix: string, i: nat): string
  {
    prefix + IntToString(i)
  }

  /** The eight per-species request columns: densities, then charges. */
  function SpeciesInputColumns(): (cols: seq<string>)
    ensures |cols| == 8
  {
    [SpeciesColumn("DENSITY_", 0), SpeciesColumn("DENSITY_", 1), SpeciesColumn("DENSITY_", 2), SpeciesColumn("DENSITY_", 3)]
      + [SpeciesColumn("CHARGES_", 0), SpeciesColumn("CHARGES_", 1), SpeciesColumn("CHARGES_", 2), SpeciesColumn("CHARGES_", 3)]
  }

  /** The nine request columns of the GND table, in table order. */
  function GndInputColumns(): (cols: seq<string>)
    ensures |cols| == 9
  {
    ["TEMPERATURE"] + SpeciesInputColumns()
  }

  /** The eight per-species request values, in column order. */
  function SpeciesFields(x: BGKInputs): (f: seq<real>)
    ensures |f| == 8 && InputFields(x) == [x.temperature] + f
  {
    x.density + x.charges
  }

  predicate NoMarks(s: string)
  {
    '?' !in s
  }

  lemma TemperatureNoMarks() ensures NoMarks("TEMPERATURE") { }

  lemma SpeciesInputColumnsNoMarks()
    ensures forall j :: 0 <= j < 8 ==> NoMarks(SpeciesInputColumns()[j])
  {
    forall i: nat | i < 4 ensures NoMarks(SpeciesColumn("DENSITY_", i)) && NoMarks(SpeciesColumn("CHARGES_", i)) {
      IntToStringHasNo(i, '?');
    }
  }

  lemma GndInputColumnsNoMarks()
    ensures forall j :: 0 <= j < 9 ==> NoMarks(GndInputColumns()[j])
  {
    SpeciesInputColumnsNoMarks();
    TemperatureNoMarks();
    forall j | 1 <= j < 9 ensures NoMarks(GndInputColumns()[j]) {
      assert GndInputColumns()[j] == SpeciesInputColumns()[j - 1];
    }
  }

  function ToleranceClause(col: string): string
  {
    "ABS(" + "?" + " - " + col + ") / " + col + " < " + "?"
  }

  // One lemma per literal: each literal's character check stays in its own small proof.
  lemma MarksAbs() ensures Placeholders("ABS(") == 0 { CountAbsent("ABS(", '?'); }
  lemma MarksMinus() ensures Placeholders(" - ") == 0 { CountAbsent(" - ", '?'); }
  lemma MarksDivide() ensures Placeholders(") / ") == 0 { CountAbsent(") / ", '?'); }
  lemma MarksLess() ensures Placeholders(" < ") == 0 { CountAbsent(" < ", '?'); }
  lemma MarksAnd() ensures Placeholders(" AND ") == 0 { CountAbsent(" AND ", '?'); }
  lemma MarksOne() ensures Placeholders("?") == 1 { }

  lemma ToleranceClauseMarks(col: string)
    requires NoMarks(col)
    ensures Placeholders(ToleranceClause(col) + " AND ") == 2
  {
    CountAbsent(col, '?');
    MarksAbs();
    MarksMinus();
    MarksDivide();
    MarksLess();
    MarksAnd();
    MarksOne();
  }

  /** One tolerance clause and its two bound values per non-zero field. */
  function FieldClauses(vals: seq<real>, cols: seq<string>, relError: real): Query
    requires |vals| == |cols|
  {
    if vals == [] then Query("", [])
    else
      var rest := FieldClauses(vals[1..], cols[1..], relError);
      if vals[0] != 0.0 then
        Query(ToleranceClause(cols[0]) + " AND " + rest.sql, [SqlReal(vals[0]), SqlReal(relError)] + rest.args)
      else rest
  }

  /** The non-zero values among `vals`, in order. */
  function NonZero(vals: seq<real>): seq<real>
  {
    if vals == [] then [] else (if vals[0] != 0.0 then [vals[0]] else []) + NonZero(vals[1..])
  }

  /** Bound values come in (value, tolerance) pairs, one pair per non-zero field, in field order. */
  lemma {:induction false} FieldClausesArgs(vals: seq<real>, cols: seq<string>, relError: real)
    requires |vals| == |cols|
    ensures |FieldClauses(vals, cols, relError).args| == 2 * |NonZero(vals)|
    ensures forall k :: 0 <= k < |NonZero(vals)| ==>
      FieldClauses(vals, cols, relError).args[2 * k] == SqlReal(NonZero(vals)[k]) &&
      FieldClauses(vals, cols, relError).args[2 * k + 1] == SqlReal(relError)
    decreases |vals|
  {
    if vals != [] {
      FieldClausesArgs(vals[1..], cols[1..], relError);
      if vals[0] != 0.0 {
        var rest := FieldClauses(vals[1..], cols[1..], relError);
        var nz := NonZero(vals[1..]);
        assert NonZero(vals) == [vals[0]] + nz;
        forall k | 1 <= k < |NonZero(vals)|
          ensures FieldClauses(vals, cols, relError).args[2 * k] == SqlReal(NonZero(vals)[k])
          ensures FieldClauses(vals, cols, relError).args[2 * k + 1] == SqlReal(relError)
        {
          assert FieldClauses(vals, cols, relError).args[2 * k] == rest.args[2 * (k - 1)];
          assert FieldClauses(vals, cols, relError).args[2 * k + 1] == rest.args[2 * (k - 1) + 1];
        }
      }
    }
  }

  /** The clause text holds one placeholder per bound value. */
  lemma {:induction false} FieldClausesBound(vals: seq<real>, cols: seq<string>, relError: real)
    requires |vals| == |cols|
    requires forall j :: 0 <= j < |cols| ==> NoMarks(cols[j])
    ensures Bound(FieldClauses(vals, cols, relError))
    decreases |vals|
  {
    if vals != [] {
      FieldClausesBound(vals[1..], cols[1..], relError);
      if vals[0] != 0.0 {
        var rest := FieldClauses(vals[1..], cols[1..], relError);
        ToleranceClauseMarks(cols[0]);
      }
    }
  }

  const GndQueryHead: string := "SELECT * FROM BGKGND WHERE "
  const GndQueryTail: string := "INVERSION=" + "?" + ";"

  /** `getGNDStringAndTuple` of the service: one clause per non-zero request field, then the version. */
  function GndQuery(args: FgsArgs, relError: real): Result<Query>
  {
    match args
    case BgkArgs(x) =>
      var c := FieldClauses(InputFields(x), GndInputColumns(), relError);
      Ok(Query(GndQueryHead + c.sql + GndQueryTail, c.args + [SqlReal(BgkVersion)]))
    case BgkMassesArgs(_, _) => Err("Using Unsupported Solver Code")
  }

  /** `getGNDStringAndTuple` of the prototype: the temperature clause is always present. */
  function GndQueryAlwaysTemperature(args: FgsArgs, relError: real): Result<Query>
  {
    match args
    case BgkArgs(x) =>
      var c := FieldClauses(SpeciesFields(x), SpeciesInputColumns(), relError);
      Ok(Query(GndQueryHead + ToleranceClause("TEMPERATURE") + " AND " + c.sql + GndQueryTail,
               [SqlReal(x.temperature), SqlReal(relError)] + c.args + [SqlReal(BgkVersion)]))
    case BgkMassesArgs(_, _) => Err("Using Unsupported Solver Code")
  }

  lemma HeadMarks() ensures Placeholders(GndQueryHead) == 0 { CountAbsent(GndQueryHead, '?'); }
  lemma InversionMarks() ensures Placeholders("INVERSION=") == 0 { CountAbsent("INVERSION=", '?'); }
  lemma SemicolonMarks() ensures Placeholders(";") == 0 { CountAbsent(";", '?'); }

  lemma HeadTailMarks()
    ensures Placeholders(GndQueryHead) == 0 && Placeholders(GndQueryTail) == 1
  {
    HeadMarks();
    InversionMarks();
    SemicolonMarks();
    MarksOne();
  }

  /** Wrapping clauses in the fixed head and tail adds exactly the version placeholder. */
  lemma WrapBound(c: Query)
    requires Bound(c)
    ensures Bound(Query(GndQueryHead + c.sql + GndQueryTail, c.args + [SqlReal(BgkVersion)]))
  {
    HeadTailMarks();
  }

  /** The service's query binds one value per placeholder. */
  lemma GndQueryBound(x: BGKInputs, relError: real)
    ensures GndQuery(BgkArgs(x), relError).Ok? && Bound(GndQuery(BgkArgs(x), relError).value)
  {
    GndInputColumnsNoMarks();
    FieldClausesBound(InputFields(x), GndInputColumns(), relError);
    WrapBound(FieldClauses(InputFields(x), GndInputColumns(), relError));
  }

  /** The service's query binds each non-zero field then the tolerance, and the BGK version last. */
  lemma GndQueryArgs(x: BGKInputs, relError: real)
    ensures GndQuery(BgkArgs(x), relError).Ok?
    ensures var q := GndQuery(BgkArgs(x), relError).value; var nz := NonZero(InputFields(x));
      && |q.args| == 2 * |nz| + 1
      && q.args[|q.args| - 1] == SqlReal(BgkVersion)
      && (forall k :: 0 <= k < |nz| ==> q.args[2 * k] == SqlReal(nz[k]) && q.args[2 * k + 1] == SqlReal(relError))
  {
    FieldClausesArgs(InputFields(x), GndInputColumns(), relError);
  }

  /** The service's query selects from the GND table and ends with the version test. */
  lemma GndQueryFrame(x: BGKInputs, relError: real)
    ensures GndQuery(BgkArgs(x), relError).Ok?
    ensures var q := GndQuery(BgkArgs(x), relError).value;
      GndQueryHead <= q.sql && q.sql[|q.sql| - |GndQueryTail|..] == GndQueryTail
  {
    var c := FieldClauses(InputFields(x), GndInputColumns(), relError);
    var sql := GndQueryHead + c.sql + GndQueryTail;
    assert sql == GndQueryHead + (c.sql + GndQueryTail);
    assert sql == (GndQueryHead + c.sql) + GndQueryTail;
  }

  /** Only BGK requests have a GND query. */
  lemma GndQueryDefined(args: FgsArgs, relError: real)
    ensures GndQuery(args, relError).Ok? <==> args.BgkArgs?
    ensures GndQueryAlwaysTemperature(args, relError).Ok? <==> args.BgkArgs?
  {
  }

  lemma Regroup(a: string, b: string, c: string, d: string, e: string)
    ensures a + b + c + d + e == a + (b + c + d) + e
  {
  }

  /** Prepending one clause for a column without placeholders keeps the values bound. */
  lemma ClauseConsBound(col: string, v: real, e: real, c: Query)
    requires NoMarks(col) && Bound(c)
    ensures Bound(Query(ToleranceClause(col) + " AND " + c.sql, [SqlReal(v), SqlReal(e)] + c.args))
  {
    ToleranceClauseMarks(col);
  }

  /** The prototype's query binds one value per placeholder. */
  lemma GndQueryAlwaysTemperatureBound(x: BGKInputs, relError: real)
    ensures GndQueryAlwaysTemperature(BgkArgs(x), relError).Ok?
    ensures Bound(GndQueryAlwaysTemperature(BgkArgs(x), relError).value)
  {
    var vals, cols := SpeciesFields(x), SpeciesInputColumns();
    var c := FieldClauses(vals, cols, relError);
    SpeciesInputColumnsNoMarks();
    FieldClausesBound(vals, cols, relError);
    TemperatureNoMarks();
    var lead := Query(ToleranceClause("TEMPERATURE") + " AND " + c.sql, [SqlReal(x.temperature), SqlReal(relError)] + c.args);
    ClauseConsBound("TEMPERATURE", x.temperature, relError, c);
    WrapBound(lead);
    Regroup(GndQueryHead, ToleranceClause("TEMPERATURE"), " AND ", c.sql, GndQueryTail);

  }

  /** The prototype's query binds the temperature first, even a zero temperature, and the version last. */
  lemma GndQueryAlwaysTemperatureArgs(x: BGKInputs, relError: real)
    ensures GndQueryAlwaysTemperature(BgkArgs(x), relError).Ok?
    ensures var q := GndQueryAlwaysTemperature(BgkArgs(x), relError).value;
      && |q.args| == 2 * |NonZero(SpeciesFields(x))| + 3
      && q.args[0] == SqlReal(x.temperature) && q.args[1] == SqlReal(relError)
      && q.args[|q.args| - 1] == SqlReal(BgkVersion)
  {
    FieldClausesArgs(SpeciesFields(x), SpeciesInputColumns(), relError);
  }

  /** For a non-zero temperature the two variants build the same query. */
  lemma GndQueryVariantsAgree(x: BGKInputs, relError: real)
    requires x.temperature != 0.0
    ensures GndQuery(BgkArgs(x), relError) == GndQueryAlwaysTemperature(BgkArgs(x), relError)
  {
    var vals, cols := InputFields(x), GndInputColumns();
    var rest := FieldClauses(SpeciesFields(x), SpeciesInputColumns(), relError);
    var clause := ToleranceClause("TEMPERATURE") + " AND ";
    assert vals[1..] == SpeciesFields(x) && cols[1..] == SpeciesInputColumns();
    assert FieldClauses(vals, cols, relError) == Query(clause + rest.sql, [SqlReal(x.temperature), SqlReal(relError)] + rest.args);
    assert GndQueryHead + (clause + rest.sql) + GndQueryTail == GndQueryHead + ToleranceClause("TEMPERATURE") + " AND " + rest.sql + GndQueryTail;
  }

  // ---------------------------------------------------------------- request rows

  /** A row of the request table: tag, rank, request id, the request fields and the mode code. */
  datatype ReqRow = ReqRow(tag: string, rank: int, req: int, temperature: real, density: Vec4, charges: Vec4, modeCode: int)

  /** `processReqRow`: rebuild the request and decode the mode; unknown codes and other solvers fail. */
  function ProcessReqRow(row: ReqRow, packet: SolverCode): (r: Result<(BGKInputs, Mode)>)
    ensures r.Ok? <==> packet == Bgk && ModeOfCode(row.modeCode).Some?
    ensures r.Ok? ==> InputFields(r.value.0) == [row.temperature] + row.density + row.charges
    ensures r.Ok? ==> ModeCode(r.value.1) == row.modeCode
  {
    if packet != Bgk then Err("Using Unsupported Solver Code")
    else
      match ModeOfCode(row.modeCode)
      case None => Err("invalid ALInterfaceMode")
      case Some(m) => Ok((BGKInputs(row.temperature, row.density, row.charges), m))
  }

  // ---------------------------------------------------------------- GND rows

  type GndRow = r: seq<real> | |r| == 23
    witness [0.0, 0.0, 0.0, 0.0, 0.0, 0.0, 0.0, 0.0, 0.0, 0.0, 0.0, 0.0, 0.0, 0.0, 0.0, 0.0, 0.0, 0.0, 0.0, 0.0, 0.0, 0.0, 0.0]

  function GndRowInputs(row: GndRow): BGKInputs
  {
    BGKInputs(row[0], row[1..5], row[5..9])
  }

  function GndRowOutputs(row: GndRow): BGKOutputs
  {
    BGKOutputs(row[10], row[11], row[12..22])
  }

  /** Reference: the outputs of the last row carrying the BGK version, if any. */
  function LastVersionMatch(rows: seq<GndRow>): Option<BGKOutputs>
  {
    if rows == [] then None
    else if rows[|rows| - 1][22] == BgkVersion then Some(GndRowOutputs(rows[|rows| - 1]))
    else LastVersionMatch(rows[..|rows| - 1])
  }

  /** The row loop of `queueFGSJob`: every row with the right version overwrites the candidate. */
  method ScanGroundTruth(rows: seq<GndRow>) returns (out: Option<BGKOutputs>)
    ensures out == LastVersionMatch(rows)
  {
    out := None;
    var i := 0;
    while i < |rows|
      invariant 0 <= i <= |rows|
      invariant out == LastVersionMatch(rows[..i])
    {
      assert rows[..i + 1][..i] == rows[..i];
      if rows[i][22] == BgkVersion {
        out := Some(GndRowOutputs(rows[i]));
      }
      i := i + 1;
    }
    assert rows[..i] == rows;
  }

  /** The scan finds an answer exactly when some row has the BGK version, and the answer is the last such row's. */
  lemma {:induction false} LastVersionMatchSpec(rows: seq<GndRow>)
    ensures LastVersionMatch(rows).Some? <==> exists i :: 0 <= i < |rows| && rows[i][22] == BgkVersion
    ensures LastVersionMatch(rows).Some? ==>
      exists i :: 0 <= i < |rows| && rows[i][22] == BgkVersion
        && LastVersionMatch(rows).value == GndRowOutputs(rows[i])
        && forall j :: i < j < |rows| ==> rows[j][22] != BgkVersion
    decreases |rows|
  {
    if rows != [] {
      var n := |rows| - 1;
      if rows[n][22] != BgkVersion {
        var front := rows[..n];
        LastVersionMatchSpec(front);
        assert forall i :: 0 <= i < n ==> front[i] == rows[i];
        if LastVersionMatch(front).Some? {
          var i :| 0 <= i < |front| && front[i][22] == BgkVersion
            && LastVersionMatch(front).value == GndRowOutputs(front[i])
            && forall j :: i < j < |front| ==> front[j][22] != BgkVersion;
          assert rows[i] == front[i];
        }
      }
    }
  }

  // ---------------------------------------------------------------- equivalence clauses

  /** `<g>.<col>=<l>.<col>`: the column agrees between the attached table `g` and the local table `l`. */
  function ColumnEquality(g: string, l: string, col: string): string
  {
    g + "." + col + "=" + l + "." + col
  }

  /** `getEquivalenceSQLStringsResults`: rows match on tag, rank and request id. */
  function ResultsEquivalence(packet: SolverCode, key: string): (r: Result<string>)
    ensures r.Ok? <==> packet == Bgk
  {
    if packet != Bgk then Err("Using Unsupported Solver Code")
    else
      var g, l := key + ".BGKRESULTS", "BGKRESULTS";
      Ok(ColumnEquality(g, l, "TAG") + " AND " + ColumnEquality(g, l, "RANK") + " AND " + ColumnEquality(g, l, "REQ"))
  }

  /** The results equivalence is the three equalities joined by two separators. */
  lemma ResultsEquivalenceJoin(key: string)
    ensures var g, l := key + ".BGKRESULTS", "BGKRESULTS";
      ResultsEquivalence(Bgk, key) ==
      Ok(Join(" AND ", [ColumnEquality(g, l, "TAG"), ColumnEquality(g, l, "RANK"), ColumnEquality(g, l, "REQ")]))
  {
    var g, l := key + ".BGKRESULTS", "BGKRESULTS";
    var t, r, q := ColumnEquality(g, l, "TAG"), ColumnEquality(g, l, "RANK"), ColumnEquality(g, l, "REQ");
    JoinCons(" AND ", r, [q]);
    JoinCons(" AND ", t, [r, q]);
    assert [t] + [r, q] == [t, r, q];
    assert [r] + [q] == [r, q];
    assert t + " AND " + (r + " AND " + q) == t + " AND " + r + " AND " + q;
  }

  /** The request columns one species at a time, density before charge, from species `i` on. */
  function SpeciesColumns(i: nat): (cols: seq<string>)
    requires i <= 4
    ensures |cols| == 2 * (4 - i)
    decreases 4 - i
  {
    if i == 4 then [] else [SpeciesColumn("DENSITY_", i), SpeciesColumn("CHARGES_", i)] + SpeciesColumns(i + 1)
  }

  /** The species loop of `getEquivalenceSQLStringsGND`: each equality followed by a separator. */
  function SpeciesEqualities(g: string, l: string, i: nat): string
    requires i <= 4
    decreases 4 - i
  {
    if i == 4 then ""
    else
      ColumnEquality(g, l, SpeciesColumn("DENSITY_", i)) + " AND "
      + ColumnEquality(g, l, SpeciesColumn("CHARGES_", i)) + " AND "
      + SpeciesEqualities(g, l, i + 1)
  }

  /** `getEquivalenceSQLStringsGND`: rows match on every request field and on the version. */
  function GndEquivalence(packet: SolverCode, key: string): (r: Result<string>)
    ensures r.Ok? <==> packet == Bgk
  {
    if packet != Bgk then Err("Using Unsupported Solver Code")
    else
      var g, l := key + ".BGKGND", "BGKGND";
      Ok(ColumnEquality(g, l, "TEMPERATURE") + " AND " + SpeciesEqualities(g, l, 0) + ColumnEquality(g, l, "INVERSION"))
  }

  /** The columns the GND equivalence compares, in clause order. */
  function GndEquivalenceColumns(): seq<string>
  {
    ["TEMPERATURE"] + SpeciesColumns(0) + ["INVERSION"]
  }

  function Equalities(g: string, l: string, cols: seq<string>): (eqs: seq<string>)
    ensures |eqs| == |cols|
    ensures forall k :: 0 <= k < |cols| ==> eqs[k] == ColumnEquality(g, l, cols[k])
  {
    if cols == [] then [] else [ColumnEquality(g, l, cols[0])] + Equalities(g, l, cols[1..])
  }

  lemma JoinCons(sep: string, x: string, rest: seq<string>)
    requires rest != []
    ensures Join(sep, [x] + rest) == x + sep + Join(sep, rest)
  {
    assert ([x] + rest)[1..] == rest;
  }

  /** Each column's equality followed by a separator: the shape both equivalence loops produce. */
  function EqualitiesLoop(g: string, l: string, cols: seq<string>): string
  {
    if cols == [] then "" else ColumnEquality(g, l, cols[0]) + " AND " + EqualitiesLoop(g, l, cols[1..])
  }

  /** A loop of separator-terminated equalities closed by one last equality is their join. */
  lemma {:induction false} EqualitiesLoopJoin(g: string, l: string, cols: seq<string>, last: string)
    ensures EqualitiesLoop(g, l, cols) + ColumnEquality(g, l, last) == Join(" AND ", Equalities(g, l, cols + [last]))
    decreases |cols|
  {
    if cols == [] {
      assert cols + [last] == [last];
    } else {
      EqualitiesLoopJoin(g, l, cols[1..], last);
      assert cols + [last] == [cols[0]] + (cols[1..] + [last]);
      assert Equalities(g, l, cols + [last]) == [ColumnEquality(g, l, cols[0])] + Equalities(g, l, cols[1..] + [last]);
      JoinCons(" AND ", ColumnEquality(g, l, cols[0]), Equalities(g, l, cols[1..] + [last]));
    }
  }

  /** The species loop is the equality loop over the species columns. */
  lemma {:induction false} SpeciesEqualitiesLoop(g: string, l: string, i: nat)
    requires i <= 4
    ensures SpeciesEqualities(g, l, i) == EqualitiesLoop(g, l, SpeciesColumns(i))
    decreases 4 - i
  {
    if i < 4 {
      SpeciesEqualitiesLoop(g, l, i + 1);
      var cols := SpeciesColumns(i);
      assert cols[1..][1..] == SpeciesColumns(i + 1);
    }
  }

  /**
   * The GND equivalence is the conjunction of one equality per request
   * column and one for the version, in clause order.
   */
  lemma GndEquivalenceJoin(key: string)
    ensures var g, l := key + ".BGKGND", "BGKGND";
      GndEquivalence(Bgk, key) == Ok(Join(" AND ", Equalities(g, l, GndEquivalenceColumns())))
  {
    var g, l := key + ".BGKGND", "BGKGND";
    SpeciesEqualitiesLoop(g, l, 0);
    var cols := ["TEMPERATURE"] + SpeciesColumns(0);
    EqualitiesLoopJoin(g, l, cols, "INVERSION");
    assert cols[1..] == SpeciesColumns(0);
  }

  /** The GND equivalence compares ten columns: the nine request columns and the version. */
  lemma GndEquivalenceColumnsSpec()
    ensures |GndEquivalenceColumns()| == 10
    ensures (set c | c in GndEquivalenceColumns()) == (set c | c in GndInputColumns()) + {"INVERSION"}
  {
    var sc := SpeciesColumns(0);
    assert sc == [SpeciesColumn("DENSITY_", 0), SpeciesColumn("CHARGES_", 0), SpeciesColumn("DENSITY_", 1), SpeciesColumn("CHARGES_", 1),
                  SpeciesColumn("DENSITY_", 2), SpeciesColumn("CHARGES_", 2), SpeciesColumn("DENSITY_", 3), SpeciesColumn("CHARGES_", 3)];
  }
}
