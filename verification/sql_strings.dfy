/**
 * The SQL text the client library formats with `sprintf` and the column
 * lists the service generates for its table definitions.
 *
 * A format string is a sequence of literal pieces and holes. Every hole
 * is followed by a literal whose first character cannot occur in the
 * value put in the hole, so the statement can be split back into its
 * values; this is what makes the rendered statements unambiguous.
 * C's `%f` rendering of a double is a parameter (`fmt`).
 */
module SqlStrings {
  import opened Fallible
  import opened Text
  import opened GlueTypes
  import opened SqlRetry

  datatype Piece = Lit(text: string) | Hole(stop: char)

  /** Fills the holes of `ps` with `vs` in order (missing values render empty). */
  function Render(ps: seq<Piece>, vs: seq<string>): string
    decreases |ps|
  {
    if ps == [] then ""
    else match ps[0]
      case Lit(l) => l + Render(ps[1..], vs)
      case Hole(_) => (if vs == [] then "" else vs[0]) + Render(ps[1..], if vs == [] then [] else vs[1..])
  }

  /** The piece is a literal starting with `c`. */
  predicate StopsAt(p: Piece, c: char)
  {
    p.Lit? && |p.text| > 0 && p.text[0] == c
  }

  /** Every hole is followed by a literal that starts with the hole's stop character. */
  predicate WellFormed(ps: seq<Piece>)
    decreases |ps|
  {
    ps == [] ||
    match ps[0]
    case Lit(_) => WellFormed(ps[1..])
    case Hole(c) => |ps| > 1 && StopsAt(ps[1], c) && WellFormed(ps[1..])
  }

  /** One value per hole, none containing its hole's stop character. */
  predicate Fits(ps: seq<Piece>, vs: seq<string>)
    decreases |ps|
  {
    if ps == [] then vs == []
    else match ps[0]
      case Lit(_) => Fits(ps[1..], vs)
      case Hole(c) => |vs| > 0 && c !in vs[0] && Fits(ps[1..], vs[1..])
  }

  /** Reads the hole values back out of a rendered statement. */
  function Parse(ps: seq<Piece>, s: string): Option<seq<string>>
    decreases |ps|
  {
    if ps == [] then (if s == "" then Some([]) else None)
    else match ps[0]
      case Lit(l) => if |l| <= |s| && s[..|l|] == l then Parse(ps[1..], s[|l|..]) else None
      case Hole(c) =>
        var i := FirstOf(s, c);
        match Parse(ps[1..], s[i..])
        case None => None
        case Some(vs) => Some([s[..i]] + vs)
  }

  lemma {:induction false} ParseRender(ps: seq<Piece>, vs: seq<string>)
    requires WellFormed(ps) && Fits(ps, vs)
    ensures Parse(ps, Render(ps, vs)) == Some(vs)
    decreases |ps|
  {
    if ps != [] {
      assert WellFormed(ps[1..]);
      match ps[0]
      case Lit(l) =>
        var rest := Render(ps[1..], vs);
        assert Render(ps, vs) == l + rest;
        assert Fits(ps[1..], vs);
        assert (l + rest)[..|l|] == l && (l + rest)[|l|..] == rest;
        ParseRender(ps[1..], vs);
      case Hole(c) =>
        var v, rest := vs[0], Render(ps[1..], vs[1..]);
        assert Render(ps, vs) == v + rest;
        assert Fits(ps[1..], vs[1..]) && c !in v;
        assert rest == ps[1].text + Render(ps[2..], vs[1..]);
        assert rest[0] == c;
        FirstOfAfter(v, c, rest);
        assert (v + rest)[..|v|] == v && (v + rest)[|v|..] == rest;
        ParseRender(ps[1..], vs[1..]);
        assert vs == [v] + vs[1..];
    }
  }

  /** Distinct fitting value lists render to distinct statements. */
  lemma RenderInjective(ps: seq<Piece>, a: seq<string>, b: seq<string>)
    requires WellFormed(ps) && Fits(ps, a) && Fits(ps, b)
    requires Render(ps, a) == Render(ps, b)
    ensures a == b
  {
    ParseRender(ps, a);
    ParseRender(ps, b);
  }

  // ---------------------------------------------------------------------
  // SELECT statements for results
  // ---------------------------------------------------------------------

  /** `SELECT * FROM <table> WHERE REQ=%d AND TAG='%s' AND RANK=%d;` */
  function SelectOneTemplate(table: string): seq<Piece>
  {
    [Lit("SELECT * FROM " + table + " WHERE REQ="), Hole(' '), Lit(" AND TAG='"), Hole('\''), Lit("' AND RANK="), Hole(';'), Lit(";")]
  }

  /** `SELECT * FROM BGKRESULTS WHERE REQ>=%d AND REQ <=%d  AND TAG='%s' AND RANK=%d;` */
  function SelectRangeTemplate(): seq<Piece>
  {
    [Lit("SELECT * FROM BGKRESULTS WHERE REQ>="), Hole(' '), Lit(" AND REQ <="), Hole(' '),
     Lit("  AND TAG='"), Hole('\''), Lit("' AND RANK="), Hole(';'), Lit(";")]
  }

  lemma SelectTemplatesWellFormed(table: string)
    ensures WellFormed(SelectOneTemplate(table)) && WellFormed(SelectRangeTemplate())
  {
    var ps := SelectOneTemplate(table);
    assert WellFormed(ps[6..]);
    assert WellFormed(ps[5..]);
    assert WellFormed(ps[4..]);
    assert WellFormed(ps[3..]);
    assert WellFormed(ps[2..]);
    assert WellFormed(ps[1..]);
    var qs := SelectRangeTemplate();
    assert WellFormed(qs[8..]);
    assert WellFormed(qs[7..]);
    assert WellFormed(qs[6..]);
    assert WellFormed(qs[5..]);
    assert WellFormed(qs[4..]);
    assert WellFormed(qs[3..]);
    assert WellFormed(qs[2..]);
    assert WellFormed(qs[1..]);
  }

  /** A tag that can be quoted: it holds no single quote. */
  predicate QuotableTag(tag: string)
  {
    '\'' !in tag
  }

  /** The table a result type is read from; only BGK and BGK-with-masses results have one. */
  function ResultTable(rt: ResultType): Option<string>
  {
    match rt
    case BgkResult => Some("BGKRESULTS")
    case BgkMassesResult => Some("BGKMASSESRESULTS")
    case _ => None
  }

  /**
   * `getResultSQLString`: the specialisations for BGK and BGK-with-masses
   * results; the generic template and the LBM one exit. Reading the
   * statement back gives the request id, the tag and the rank.
   */
  function ResultSqlString(rt: ResultType, rank: int, tag: string, req: int): (r: Result<string>)
    ensures r.Ok? <==> rt == BgkResult || rt == BgkMassesResult
    ensures r.Ok? && QuotableTag(tag) ==>
      Parse(SelectOneTemplate(ResultTable(rt).value), r.value) == Some([IntToString(req), tag, IntToString(rank)])
  {
    match ResultTable(rt)
    case None => Err("unsupported result type")
    case Some(table) =>
      SelectResultRoundTrip(table, rank, tag, req);
      Ok(Render(SelectOneTemplate(table), [IntToString(req), tag, IntToString(rank)]))
  }

  lemma SelectResultRoundTrip(table: string, rank: int, tag: string, req: int)
    ensures QuotableTag(tag) ==>
      Parse(SelectOneTemplate(table), Render(SelectOneTemplate(table), [IntToString(req), tag, IntToString(rank)]))
      == Some([IntToString(req), tag, IntToString(rank)])
  {
    IntToStringHasNo(req, ' ');
    IntToStringHasNo(rank, ';');
    if QuotableTag(tag) {
      SelectOneFits(table, IntToString(req), tag, IntToString(rank));
    }
  }

  lemma SelectOneFits(table: string, a: string, b: string, c: string)
    requires ' ' !in a && '\'' !in b && ';' !in c
    ensures Parse(SelectOneTemplate(table), Render(SelectOneTemplate(table), [a, b, c])) == Some([a, b, c])
  {
    var ps, vs := SelectOneTemplate(table), [a, b, c];
    SelectTemplatesWellFormed(table);
    assert Fits(ps[5..], vs[2..]);
    assert Fits(ps[3..], vs[1..]);
    ParseRender(ps, vs);
  }

  /** Different requests select with different statements (for tags without quotes). */
  lemma ResultSqlStringInjective(rt: ResultType, rank1: int, tag1: string, req1: int, rank2: int, tag2: string, req2: int)
    requires rt == BgkResult || rt == BgkMassesResult
    requires QuotableTag(tag1) && QuotableTag(tag2)
    requires ResultSqlString(rt, rank1, tag1, req1) == ResultSqlString(rt, rank2, tag2, req2)
    ensures rank1 == rank2 && tag1 == tag2 && req1 == req2
  {
    var a, b := [IntToString(req1), tag1, IntToString(rank1)], [IntToString(req2), tag2, IntToString(rank2)];
    assert a == b;
    IntToStringInjective(req1, req2);
    IntToStringInjective(rank1, rank2);
  }

  /**
   * `getResultSQLStringReqRange`: only BGK results have a range query;
   * every other result type exits. Reading the statement back gives the
   * two bounds, the tag and the rank.
   */
  function ResultRangeSqlString(rt: ResultType, rank: int, tag: string, first: int, last: int): (r: Result<string>)
    ensures r.Ok? <==> rt == BgkResult
    ensures r.Ok? && QuotableTag(tag) ==>
      Parse(SelectRangeTemplate(), r.value) == Some([IntToString(first), IntToString(last), tag, IntToString(rank)])
  {
    if rt != BgkResult then Err("unsupported result type")
    else
      SelectRangeRoundTrip(rank, tag, first, last);
      Ok(Render(SelectRangeTemplate(), [IntToString(first), IntToString(last), tag, IntToString(rank)]))
  }

  lemma SelectRangeRoundTrip(rank: int, tag: string, first: int, last: int)
    ensures QuotableTag(tag) ==>
      var vs := [IntToString(first), IntToString(last), tag, IntToString(rank)];
      Parse(SelectRangeTemplate(), Render(SelectRangeTemplate(), vs)) == Some(vs)
  {
    IntToStringHasNo(first, ' ');
    IntToStringHasNo(last, ' ');
    IntToStringHasNo(rank, ';');
    if QuotableTag(tag) {
      SelectRangeFits(IntToString(first), IntToString(last), tag, IntToString(rank));
    }
  }

  lemma SelectRangeFits(a: string, b: string, c: string, d: string)
    requires ' ' !in a && ' ' !in b && '\'' !in c && ';' !in d
    ensures Parse(SelectRangeTemplate(), Render(SelectRangeTemplate(), [a, b, c, d])) == Some([a, b, c, d])
  {
    var ps, vs := SelectRangeTemplate(), [a, b, c, d];
    SelectTemplatesWellFormed("");
    assert Fits(ps[7..], vs[3..]);
    assert Fits(ps[5..], vs[2..]);
    assert Fits(ps[3..], vs[1..]);
    ParseRender(ps, vs);
  }

  // ---------------------------------------------------------------------
  // INSERT statements for requests
  // ---------------------------------------------------------------------

  /**
   * The value cells after the rank: `n` cells each introduced by ", ",
   * then `lastSep` and the request type, then the closing parenthesis.
   */
  function Cells(n: nat, lastSep: string): seq<Piece>
    decreases n
  {
    if n == 0 then [Lit(lastSep), Hole(')'), Lit(")")]
    else [Lit(", "), Hole(',')] + Cells(n - 1, lastSep)
  }

  /** `INSERT INTO <table> VALUES('%s', %d, ...)` with `n` cells after the rank. */
  function InsertTemplate(table: string, n: nat, lastSep: string): seq<Piece>
  {
    [Lit("INSERT INTO " + table + " VALUES('"), Hole('\''), Lit("', "), Hole(',')] + Cells(n, lastSep)
  }

  lemma {:induction false} CellsWellFormed(n: nat, lastSep: string)
    requires |lastSep| > 0 && lastSep[0] == ','
    ensures WellFormed(Cells(n, lastSep)) && StopsAt(Cells(n, lastSep)[0], ',')
    decreases n
  {
    var cs := Cells(n, lastSep);
    if n == 0 {
      assert WellFormed(cs[2..]);
      assert WellFormed(cs[1..]);
    } else {
      var rest := Cells(n - 1, lastSep);
      CellsWellFormed(n - 1, lastSep);
      assert cs[2..] == rest && cs[1..] == [Hole(',')] + rest;
      assert WellFormed(cs[1..]);
    }
  }

  lemma InsertWellFormed(table: string, n: nat, lastSep: string)
    requires |lastSep| > 0 && lastSep[0] == ','
    ensures WellFormed(InsertTemplate(table, n, lastSep))
  {
    var cs := Cells(n, lastSep);
    var ps := InsertTemplate(table, n, lastSep);
    CellsWellFormed(n, lastSep);
    assert ps[4..] == cs && ps[3..] == [Hole(',')] + cs;
    assert WellFormed(ps[3..]);
    assert WellFormed(ps[2..]);
    assert WellFormed(ps[1..]);
  }

  lemma {:induction false} CellsFit(n: nat, lastSep: string, vs: seq<string>)
    requires |vs| == n + 1 && ')' !in vs[n]
    requires forall j :: 0 <= j < n ==> ',' !in vs[j]
    ensures Fits(Cells(n, lastSep), vs)
    decreases n
  {
    var cs := Cells(n, lastSep);
    if n == 0 {
      assert Fits(cs[2..], vs[1..]);
      assert Fits(cs[1..], vs);
    } else {
      var rest := Cells(n - 1, lastSep);
      CellsFit(n - 1, lastSep, vs[1..]);
      assert cs[2..] == rest && cs[1..] == [Hole(',')] + rest;
      assert Fits(cs[1..], vs);
    }
  }

  /** The `%f` renderings of a sequence of doubles. */
  function Formatted(fmt: real -> string, xs: seq<real>): (fs: seq<string>)
    ensures |fs| == |xs|
    ensures forall j :: 0 <= j < |xs| ==> fs[j] == fmt(xs[j])
  {
    if xs == [] then [] else [fmt(xs[0])] + Formatted(fmt, xs[1..])
  }

  /** The request fields a statement carries: the nine BGK fields, then the four masses if any. */
  function RequestFields(a: FgsArgs): seq<real>
  {
    match a
    case BgkArgs(x) => InputFields(x)
    case BgkMassesArgs(x, masses) => InputFields(x) + masses
  }

  /** The request kinds the client library can be instantiated with. */
  datatype ClientRequest = Known(args: FgsArgs) | LbmToOneDmd | OtherRequest

  /** The table and the separator before the request type: the masses statement has two spaces there. */
  function InsertLayout(a: FgsArgs): (string, string)
  {
    match a
    case BgkArgs(_) => ("BGKREQS", ", ")
    case BgkMassesArgs(_, _) => ("BGKMASSESREQS", ",  ")
  }

  /** The values of a request row, in column order. */
  function RequestValues(a: FgsArgs, rank: int, tag: string, req: int, reqType: Mode, fmt: real -> string): seq<string>
  {
    [tag, IntToString(rank), IntToString(req)] + Formatted(fmt, RequestFields(a)) + [IntToString(ModeCode(reqType))]
  }

  /**
   * `getReqSQLString`: a BGK request fills the thirteen columns of
   * BGKREQS, a BGK-with-masses request the seventeen of BGKMASSESREQS;
   * the generic template and the LBM one exit. When `%f` never prints a
   * comma, reading the statement back gives the tag, rank, request id,
   * every field and the request type, in column order.
   */
  function ReqSqlString(q: ClientRequest, rank: int, tag: string, req: int, reqType: Mode, fmt: real -> string): (r: Result<string>)
    ensures r.Ok? <==> q.Known?
    ensures r.Ok? ==> |RequestValues(q.args, rank, tag, req, reqType, fmt)| == if q.args.BgkArgs? then 13 else 17
    ensures r.Ok? && QuotableTag(tag) && (forall y: real :: ',' !in fmt(y)) ==>
      Parse(RequestTemplate(q.args), r.value) == Some(RequestValues(q.args, rank, tag, req, reqType, fmt))
  {
    match q
    case Known(a) =>
      RequestRoundTrip(a, rank, tag, req, reqType, fmt);
      Ok(Render(RequestTemplate(a), RequestValues(a, rank, tag, req, reqType, fmt)))
    case LbmToOneDmd => Err("unsupported request type")
    case OtherRequest => Err("unsupported request type")
  }

  /** The statement layout for a request: its table, one cell per field after the rank, its separator. */
  function RequestTemplate(a: FgsArgs): seq<Piece>
  {
    InsertTemplate(InsertLayout(a).0, 1 + |RequestFields(a)|, InsertLayout(a).1)
  }

  lemma RequestRoundTrip(a: FgsArgs, rank: int, tag: string, req: int, reqType: Mode, fmt: real -> string)
    ensures |RequestValues(a, rank, tag, req, reqType, fmt)| == if a.BgkArgs? then 13 else 17
    ensures QuotableTag(tag) && (forall y: real :: ',' !in fmt(y)) ==>
      var vs := RequestValues(a, rank, tag, req, reqType, fmt);
      Parse(RequestTemplate(a), Render(RequestTemplate(a), vs)) == Some(vs)
  {
    var fs := Formatted(fmt, RequestFields(a));
    IntToStringHasNo(rank, ',');
    IntToStringHasNo(req, ',');
    IntToStringHasNo(ModeCode(reqType), ')');
    if QuotableTag(tag) && (forall y: real :: ',' !in fmt(y)) {
      assert forall j :: 0 <= j < |fs| ==> ',' !in fs[j];
      InsertFits(InsertLayout(a).0, InsertLayout(a).1, tag, IntToString(rank), IntToString(req), fs, IntToString(ModeCode(reqType)));
    }
  }

  lemma InsertFits(table: string, lastSep: string, tag: string, rank: string, req: string, fs: seq<string>, reqType: string)
    requires lastSep == ", " || lastSep == ",  "
    requires '\'' !in tag && ',' !in rank && ',' !in req && ')' !in reqType
    requires forall j :: 0 <= j < |fs| ==> ',' !in fs[j]
    ensures var ps, vs := InsertTemplate(table, 1 + |fs|, lastSep), [tag, rank, req] + fs + [reqType];
      Parse(ps, Render(ps, vs)) == Some(vs)
  {
    var n := 1 + |fs|;
    var ps, vs := InsertTemplate(table, n, lastSep), [tag, rank, req] + fs + [reqType];
    InsertWellFormed(table, n, lastSep);
    var cells := vs[2..];
    assert cells == [req] + fs + [reqType];
    forall j | 0 <= j < n ensures ',' !in cells[j] {
      if j > 0 {
        assert cells[j] == fs[j - 1];
      }
    }
    CellsFit(n, lastSep, cells);
    assert ps[4..] == Cells(n, lastSep) && ps[3..] == [Hole(',')] + Cells(n, lastSep);
    assert Fits(ps[3..], vs[1..]);
    assert Fits(ps, vs);
    ParseRender(ps, vs);
  }

  // ---------------------------------------------------------------------
  // Column lists for array fields (`getSQLArrGenString`)
  // ---------------------------------------------------------------------

  /** The Python types a column list can be generated for. */
  datatype PyType = PyInt | PyFloat | PyOther(name: string)

  /** `int` columns are INT, `float` columns REAL; any other type raises. */
  function SqlTypeName(t: PyType): (r: Result<string>)
    ensures r.Ok? <==> !t.PyOther?
    ensures r.Ok? ==> r.value == if t == PyInt then "INT" else "REAL"
  {
    match t
    case PyInt => Ok("INT")
    case PyFloat => Ok("REAL")
    case PyOther(_) => Err("Requested Incompatible SQL Type")
  }

  /** Column `i` of the array: its name `<field>_<i>`, its type and a trailing ", ". */
  function Segment(field: string, i: nat, typeName: string): string
  {
    field + "_" + IntToString(i) + " " + typeName + ", "
  }

  /** The first `n` column segments, in increasing index order. */
  function Segments(field: string, typeName: string, n: nat): string
    decreases n
  {
    if n == 0 then "" else Segments(field, typeName, n - 1) + Segment(field, n - 1, typeName)
  }

  /**
   * `getSQLArrGenString` (both copies): the type is checked first, then
   * one segment per index of `range(length)`; a non-positive length gives
   * the empty string.
   */
  method GetSqlArrGenString(field: string, dType: PyType, length: int) returns (r: Result<string>)
    ensures r.Ok? <==> !dType.PyOther?
    ensures r.Ok? ==> r.value == Segments(field, SqlTypeName(dType).value, if length < 0 then 0 else length)
  {
    var tName := SqlTypeName(dType);
    if tName.Err? {
      return Err(tName.msg);
    }
    var t := tName.value;
    var acc := "";
    var i := 0;
    while i < length
      invariant 0 <= i && (length >= 0 ==> i <= length) && (length < 0 ==> i == 0)
      invariant acc == Segments(field, t, i)
    {
      acc := acc + Segment(field, i, t);
      i := i + 1;
    }
    assert i == if length < 0 then 0 else length;
    return Ok(acc);
  }

  lemma SegmentCommas(field: string, i: nat, typeName: string)
    requires ',' !in field && ',' !in typeName
    ensures CountChar(Segment(field, i, typeName), ',') == 1
  {
    IntToStringHasNo(i, ',');
    assert multiset(", ")[','] == 1;
    assert multiset(Segment(field, i, typeName))
      == multiset(field) + multiset("_") + multiset(IntToString(i)) + multiset(" ") + multiset(typeName) + multiset(", ");
  }

  /** For a field name without commas, the list has exactly one comma per column. */
  lemma {:induction false} SegmentsCommas(field: string, typeName: string, n: nat)
    requires ',' !in field && ',' !in typeName
    ensures CountChar(Segments(field, typeName, n), ',') == n
    decreases n
  {
    if n > 0 {
      SegmentsCommas(field, typeName, n - 1);
      SegmentCommas(field, n - 1, typeName);
      assert multiset(Segments(field, typeName, n))
        == multiset(Segments(field, typeName, n - 1)) + multiset(Segment(field, n - 1, typeName));
    }
  }

  /** The columns come in index order: the list for `n + m` extends the list for `n`. */
  lemma {:induction false} SegmentsExtend(field: string, typeName: string, n: nat, m: nat)
    ensures |Segments(field, typeName, n)| <= |Segments(field, typeName, n + m)|
    ensures Segments(field, typeName, n + m)[..|Segments(field, typeName, n)|] == Segments(field, typeName, n)
    decreases m
  {
    if m > 0 {
      SegmentsExtend(field, typeName, n, m - 1);
      var a, b := Segments(field, typeName, n + m - 1), Segment(field, n + m - 1, typeName);
      assert (a + b)[..|a|] == a;
    }
  }
}
