/**
 * The learner side of active learning: packing BGK records into the flat
 * vectors the random forest works on, the per-column error-bar check, the
 * aggregation of those checks into one verdict, the two interpolation
 * wrappers and the choice between them.
 */
module Learner {
  import opened Fallible
  import opened GlueTypes
  import GroundTruth

  // ------------------------------------------------------------ pack/unpack

  /** A BGK outputs record whose leaves are of any type (reals for predictions, booleans for checks). */
  datatype OutputsOf<T> = OutputsOf(viscosity: T, conductivity: T, diffCoeff: seq<T>)

  /** `pack_outputs` on a record of any leaf type. */
  function PackOutputs<T>(o: OutputsOf<T>): (p: seq<T>)
    ensures |p| == 2 + |o.diffCoeff|
  {
    [o.viscosity, o.conductivity] + o.diffCoeff
  }

  /** `unpack_outputs`: index 0 is the viscosity, 1 the conductivity, the rest the diffusion coefficients. */
  function UnpackOutputs<T>(p: seq<T>): (r: Result<OutputsOf<T>>)
    ensures r.Ok? <==> |p| >= 2
    ensures r.Ok? ==> PackOutputs(r.value) == p
  {
    if |p| < 2 then Err("index out of range")
    else Ok(OutputsOf(p[0], p[1], p[2..]))
  }

  /** Unpacking a packed record gives the record back. */
  lemma UnpackPack<T>(o: OutputsOf<T>)
    ensures UnpackOutputs(PackOutputs(o)) == Ok(o)
  {
    assert PackOutputs(o)[2..] == o.diffCoeff;
  }

  /** A BGK result seen as a record of reals. */
  function AsOutputsOf(y: BGKOutputs): OutputsOf<real>
  {
    OutputsOf(y.viscosity, y.thermalConductivity, y.diffCoeff)
  }

  /**
   * `pack_outputs` on a BGK result is the twelve-field table order, and
   * `unpack_outputs` of it reconstructs the result field by field.
   */
  lemma PackUnpackBGK(y: BGKOutputs)
    ensures PackOutputs(AsOutputsOf(y)) == OutputFields(y)
    ensures |OutputFields(y)| == 12
    ensures UnpackOutputs(OutputFields(y)) == Ok(AsOutputsOf(y))
  {
    UnpackPack(AsOutputsOf(y));
  }

  /** `pack_inputs`: temperature, the four densities, the four charges. */
  function PackInputs(x: BGKInputs): (p: seq<real>)
    ensures |p| == 9 && p[0] == x.temperature
    ensures p[1..5] == x.density && p[5..9] == x.charges
  {
    InputFields(x)
  }

  // ---------------------------------------------------------- solver layout

  /** `SOLVER_INDEXES[BGK]`: input columns [0, 9), output columns [10, 22). */
  const InputStart: nat := 0
  const InputEnd: nat := 9
  const OutputStart: nat := 10
  const OutputEnd: nat := 22
  const NInputs: nat := 9
  const NOutputs: nat := 12

  /**
   * The learner's column slices pick out of a ground-truth row exactly the
   * packed request and the packed result the service reads from that row.
   */
  lemma SolverIndexesMatchGndRow(row: GroundTruth.GndRow)
    ensures InputEnd - InputStart == NInputs && OutputEnd - OutputStart == NOutputs
    ensures row[InputStart..InputEnd] == PackInputs(GroundTruth.GndRowInputs(row))
    ensures row[OutputStart..OutputEnd] == PackOutputs(AsOutputsOf(GroundTruth.GndRowOutputs(row)))
  {
    var x := GroundTruth.GndRowInputs(row);
    assert row[0..9] == [row[0]] + row[1..5] + row[5..9];
    var y := GroundTruth.GndRowOutputs(row);
    assert row[10..22] == [row[10], row[11]] + row[12..22];
  }

  // ------------------------------------------------------------ error bars

  /** A calibrated per-column error bound; inactive columns are set to infinity. */
  datatype ErrBound = Finite(bound: real) | Infinite

  /** `errbar < err_info` for one column; nothing finite reaches infinity. */
  predicate Below(e: real, b: ErrBound)
  {
    b.Infinite? || e < b.bound
  }

  /** `process_iserrok`: the column-wise strict comparison. */
  function ProcessIsErrOk(e: seq<real>, info: seq<ErrBound>): (r: seq<bool>)
    requires |e| == |info|
    ensures |r| == |e|
  {
    seq(|e|, k requires 0 <= k < |e| => Below(e[k], info[k]))
  }

  /**
   * `iserrok`: pack the error bars, compare them column by column with
   * the calibrated bounds and unpack the booleans into an outputs record.
   * Bounds of another length than the twelve packed fields do not compare.
   */
  function IsErrOk(err: BGKOutputs, info: seq<ErrBound>): (r: Result<OutputsOf<bool>>)
    ensures r.Ok? <==> |info| == 12
    ensures r.Ok? ==> |r.value.diffCoeff| == 10
  {
    var packed := OutputFields(err);
    if |info| != |packed| then Err("operands could not be broadcast together")
    else UnpackOutputs(ProcessIsErrOk(packed, info))
  }

  /** Each leaf of `iserrok` is the check of the matching field against its bound. */
  lemma IsErrOkLeaves(err: BGKOutputs, info: seq<ErrBound>)
    requires |info| == 12
    ensures IsErrOk(err, info).Ok?
    ensures IsErrOk(err, info).value.viscosity <==> Below(err.viscosity, info[0])
    ensures IsErrOk(err, info).value.conductivity <==> Below(err.thermalConductivity, info[1])
    ensures forall i :: 0 <= i < 10 ==>
      (IsErrOk(err, info).value.diffCoeff[i] <==> Below(err.diffCoeff[i], info[2 + i]))
  {
  }

  // ---------------------------------------------------------- aggregation

  /** An element of the structure handed to the aggregator: a single flag or an iterable of flags. */
  datatype Leaf = Flag(b: bool) | Group(bs: seq<bool>)

  /** Python truthiness of one element as the aggregator reads it: a flag itself, or `all` of a group. */
  predicate Truthy(l: Leaf)
  {
    match l
    case Flag(b) => b
    case Group(bs) => forall j :: 0 <= j < |bs| ==> bs[j]
  }

  /** The aggregation loop from element `i` on; a failure sticks but does not stop the loop. */
  function CheckFrom(items: seq<Leaf>, i: nat, retVal: bool): bool
    requires i <= |items|
    decreases |items| - i
  {
    if i == |items| then retVal
    else CheckFrom(items, i + 1, if Truthy(items[i]) then retVal else false)
  }

  lemma {:induction false} CheckFromSpec(items: seq<Leaf>, i: nat, retVal: bool)
    requires i <= |items|
    ensures CheckFrom(items, i, retVal) <==> retVal && forall k :: i <= k < |items| ==> Truthy(items[k])
    decreases |items| - i
  {
    if i < |items| {
      CheckFromSpec(items, i + 1, if Truthy(items[i]) then retVal else false);
    }
  }

  /** `simpleALErrorChecker`: true iff every flag, and every flag of every group, is true. */
  function SimpleALErrorChecker(items: seq<Leaf>): (ok: bool)
    ensures ok <==> forall k :: 0 <= k < |items| ==> Truthy(items[k])
  {
    CheckFromSpec(items, 0, true);
    CheckFrom(items, 0, true)
  }

  /** Iterating an outputs record yields viscosity, conductivity, then the diffusion array. */
  function Leaves(o: OutputsOf<bool>): seq<Leaf>
  {
    [Flag(o.viscosity), Flag(o.conductivity), Group(o.diffCoeff)]
  }

  // ------------------------------------------------------ interpolation models

  /** `sys.float_info.max`. */
  const FloatMax: real := 1.7976931348623157e308

  /** The debugging model: maximal error, no prediction. */
  function StubPredict(x: BGKInputs): (real, Option<BGKOutputs>)
  {
    (FloatMax, None)
  }

  /** The debugging uncertainty check: accept anything below the largest float. */
  predicate StubUq(err: real)
  {
    err < FloatMax
  }

  /**
   * The interpolation model the service calls: the stub wrapper, or a
   * trained learner returning its mean prediction and error bars together
   * with the calibrated per-column bounds.
   */
  datatype InterpModel =
    | StubModel
    | LearnedModel(predict: BGKInputs -> (BGKOutputs, BGKOutputs), errInfo: seq<ErrBound>)

  /** Calling the wrapper: whether the prediction is trustworthy, and the prediction. */
  function Evaluate(m: InterpModel, x: BGKInputs): (r: Result<(bool, Option<BGKOutputs>)>)
    ensures m.StubModel? ==> r.Ok?
    ensures m.LearnedModel? ==> (r.Ok? <==> |m.errInfo| == 12)
    ensures r.Ok? && m.LearnedModel? ==> r.value.1 == Some(m.predict(x).0)
  {
    match m
    case StubModel =>
      var (err, output) := StubPredict(x);
      Ok((StubUq(err), output))
    case LearnedModel(predict, info) =>
      var (output, err) := predict(x);
      var flags := IsErrOk(err, info);
      if flags.Err? then Err(flags.msg)
      else Ok((SimpleALErrorChecker(Leaves(flags.value)), Some(output)))
  }

  /** The stub never vouches for a result and never produces one. */
  lemma StubNeverAccepts(x: BGKInputs)
    ensures Evaluate(StubModel, x) == Ok((false, None))
  {
  }

  /** The aggregated leaves of a record are all true iff every packed flag is. */
  lemma LeavesAllTrue(f: OutputsOf<bool>)
    ensures SimpleALErrorChecker(Leaves(f)) <==>
      forall k :: 0 <= k < |PackOutputs(f)| ==> PackOutputs(f)[k]
  {
    var p := PackOutputs(f);
    var ls := Leaves(f);
    if forall k :: 0 <= k < |p| ==> p[k] {
      assert p[0] && p[1];
      forall j | 0 <= j < |f.diffCoeff|
        ensures f.diffCoeff[j]
      {
        assert p[2 + j] == f.diffCoeff[j];
      }
      assert Truthy(ls[2]);
    }
    if SimpleALErrorChecker(ls) {
      assert Truthy(ls[0]) && Truthy(ls[1]) && Truthy(ls[2]);
      forall k | 0 <= k < |p|
        ensures p[k]
      {
        if k >= 2 {
          assert p[k] == f.diffCoeff[k - 2];
        }
      }
    }
  }

  /** The packed checks of `iserrok`, column by column. */
  lemma IsErrOkPacked(err: BGKOutputs, info: seq<ErrBound>)
    requires |info| == 12
    ensures IsErrOk(err, info).Ok?
    ensures forall k :: 0 <= k < 12 ==>
      (PackOutputs(IsErrOk(err, info).value)[k] <==> Below(OutputFields(err)[k], info[k]))
  {
  }

  /** A trained learner vouches for its prediction iff every packed error bar is below its column's bound. */
  lemma LearnedAccepts(m: InterpModel, x: BGKInputs)
    requires m.LearnedModel? && |m.errInfo| == 12
    ensures Evaluate(m, x).Ok?
    ensures Evaluate(m, x).value.0 <==>
      forall k :: 0 <= k < 12 ==> Below(OutputFields(m.predict(x).1)[k], m.errInfo[k])
  {
    var err := m.predict(x).1;
    IsErrOkPacked(err, m.errInfo);
    var f := IsErrOk(err, m.errInfo).value;
    LeavesAllTrue(f);
  }

  /** Columns calibrated to infinity never reject: with every bound infinite, every prediction is accepted. */
  lemma InactiveColumnsPass(m: InterpModel, x: BGKInputs)
    requires m.LearnedModel? && |m.errInfo| == 12
    requires forall k :: 0 <= k < 12 ==> m.errInfo[k].Infinite?
    ensures Evaluate(m, x) == Ok((true, Some(m.predict(x).0)))
  {
    LearnedAccepts(m, x);
  }

  /**
   * `getInterpModel`: the stub for the fake backend, the retrained network
   * or forest for theirs; any other backend is unsupported.
   */
  function GetInterpModel(backend: LearnerBackend, network: InterpModel, forest: InterpModel): (r: Result<InterpModel>)
    ensures r.Ok? <==> backend != MysticBackend
    ensures backend == FakeBackend ==> r == Ok(StubModel)
    ensures backend == PyTorchBackend ==> r == Ok(network)
    ensures backend == RandForestBackend ==> r == Ok(forest)
  {
    match backend
    case FakeBackend => Ok(StubModel)
    case PyTorchBackend => Ok(network)
    case RandForestBackend => Ok(forest)
    case MysticBackend => Err("Using Unsupported Active Learning Backend")
  }
}
