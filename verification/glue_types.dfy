/**
 * Shared vocabulary of the GLUE code: the request modes and their wire
 * codes, the database, solver, provenance, learner, scheduler and
 * provisioning selectors, and the BGK request/result records.
 */
module GlueTypes {
  import opened Fallible

  type Vec4 = s: seq<real> | |s| == 4 witness [0.0, 0.0, 0.0, 0.0]
  type Vec10 = s: seq<real> | |s| == 10 witness [0.0, 0.0, 0.0, 0.0, 0.0, 0.0, 0.0, 0.0, 0.0, 0.0]

  function Zeros4(): Vec4 { [0.0, 0.0, 0.0, 0.0] }
  function Zeros10(): Vec10 { [0.0, 0.0, 0.0, 0.0, 0.0, 0.0, 0.0, 0.0, 0.0, 0.0] }

  /** How a request is to be served (`ALInterfaceMode_e`). */
  datatype Mode = FGS | Mystic | ActiveLearner | Fake | Default | FastFGS | Analytic | Kill

  /** The integer a mode travels as in the request table. */
  function ModeCode(m: Mode): int
  {
    match m
    case FGS => 0
    case Mystic => 1
    case ActiveLearner => 2
    case Fake => 3
    case Default => 4
    case FastFGS => 5
    case Analytic => 6
    case Kill => 9
  }

  /** Decoding a stored mode code; codes outside the enumeration do not decode. */
  function ModeOfCode(c: int): (m: Option<Mode>)
    ensures m.Some? <==> c in {0, 1, 2, 3, 4, 5, 6, 9}
  {
    match c
    case 0 => Some(FGS)
    case 1 => Some(Mystic)
    case 2 => Some(ActiveLearner)
    case 3 => Some(Fake)
    case 4 => Some(Default)
    case 5 => Some(FastFGS)
    case 6 => Some(Analytic)
    case 9 => Some(Kill)
    case _ => None
  }

  /** Encoding then decoding a mode gives it back, and a decoded code encodes to itself. */
  lemma ModeCodeRoundTrip(m: Mode, c: int)
    ensures ModeOfCode(ModeCode(m)) == Some(m)
    ensures ModeOfCode(c).Some? ==> ModeCode(ModeOfCode(c).value) == c
  {
  }

  /** Distinct modes have distinct codes. */
  lemma ModeCodeInjective(a: Mode, b: Mode)
    ensures ModeCode(a) == ModeCode(b) ==> a == b
  {
    ModeCodeRoundTrip(a, 0);
    ModeCodeRoundTrip(b, 0);
  }

  /** `DatabaseMode_e`. */
  datatype DatabaseMode = Sqlite | MySql | Hdf5

  function DatabaseModeCode(d: DatabaseMode): int
  {
    match d
    case Sqlite => 0
    case MySql => 1
    case Hdf5 => 2
  }

  /** Decoding a stored `DatabaseMode_e` value: the three enumerated codes and nothing else. */
  function DatabaseModeOfCode(c: int): (d: Option<DatabaseMode>)
    ensures d.Some? <==> 0 <= c <= 2
  {
    if c == 0 then Some(Sqlite) else if c == 1 then Some(MySql) else if c == 2 then Some(Hdf5) else None
  }

  /** The database-mode codes decode to the modes that produce them. */
  lemma DatabaseModeCodeRoundTrip(d: DatabaseMode, c: int)
    ensures DatabaseModeOfCode(DatabaseModeCode(d)) == Some(d)
    ensures DatabaseModeOfCode(c).Some? ==> DatabaseModeCode(DatabaseModeOfCode(c).value) == c
  {
  }

  /** The solver (packet type) a request belongs to. */
  datatype SolverCode = Bgk | LbmZeroD | BgkMasses

  function SolverCodeValue(s: SolverCode): int
  {
    match s
    case Bgk => 0
    case LbmZeroD => 1
    case BgkMasses => 2
  }

  /**
   * Where a result came from. The analytic provenance is used by the
   * service but has no integer value in the type module that is part of
   * this model, so it has no code here.
   */
  datatype Provenance = ProvFGS | ProvLearner | ProvFake | ProvDB | ProvFastFGS | ProvAnalytic

  function ProvenanceCode(p: Provenance): Option<int>
  {
    match p
    case ProvFGS => Some(0)
    case ProvLearner => Some(2)
    case ProvFake => Some(3)
    case ProvDB => Some(4)
    case ProvFastFGS => Some(5)
    case ProvAnalytic => None
  }

  /** Provenance codes that exist coincide with the code of the mode of the same name. */
  lemma ProvenanceMatchesMode()
    ensures ProvenanceCode(ProvFGS) == Some(ModeCode(FGS))
    ensures ProvenanceCode(ProvLearner) == Some(ModeCode(ActiveLearner))
    ensures ProvenanceCode(ProvFake) == Some(ModeCode(Fake))
    ensures ProvenanceCode(ProvFastFGS) == Some(ModeCode(FastFGS))
  {
  }

  datatype LearnerBackend = MysticBackend | PyTorchBackend | FakeBackend | RandForestBackend

  datatype Scheduler = Slurm | Blocking | Flux | OtherScheduler

  datatype Provisioning = Spack | Manual | OtherProvisioning

  /** A BGK request: temperature and four species' densities and charges. */
  datatype BGKInputs = BGKInputs(temperature: real, density: Vec4, charges: Vec4)

  /** A BGK answer: viscosity, thermal conductivity and ten diffusion coefficients. */
  datatype BGKOutputs = BGKOutputs(viscosity: real, thermalConductivity: real, diffCoeff: Vec10)

  /** Arguments of a fine-grain request, by solver: only BGK requests are served end to end. */
  datatype FgsArgs = BgkArgs(bgk: BGKInputs) | BgkMassesArgs(masses: BGKInputs, speciesMasses: Vec4)

  /** The client-side result record, which also carries the provenance code. */
  datatype BGKResult = BGKResult(outputs: BGKOutputs, provenance: int)

  /** The nine request fields in table order: temperature, densities, charges. */
  function InputFields(x: BGKInputs): (f: seq<real>)
    ensures |f| == 9 && f[0] == x.temperature
    ensures forall i :: 0 <= i < 4 ==> f[1 + i] == x.density[i] && f[5 + i] == x.charges[i]
  {
    [x.temperature] + x.density + x.charges
  }

  /** The twelve result fields in table order: viscosity, conductivity, diffusion coefficients. */
  function OutputFields(y: BGKOutputs): (f: seq<real>)
    ensures |f| == 12 && f[0] == y.viscosity && f[1] == y.thermalConductivity
    ensures forall i :: 0 <= i < 10 ==> f[2 + i] == y.diffCoeff[i]
  {
    [y.viscosity, y.thermalConductivity] + y.diffCoeff
  }

  lemma InputFieldsInjective(a: BGKInputs, b: BGKInputs)
    requires InputFields(a) == InputFields(b)
    ensures a == b
  {
    assert a.density == InputFields(a)[1..5];
    assert b.density == InputFields(b)[1..5];
    assert a.charges == InputFields(a)[5..9];
    assert b.charges == InputFields(b)[5..9];
  }

  lemma OutputFieldsInjective(a: BGKOutputs, b: BGKOutputs)
    requires OutputFields(a) == OutputFields(b)
    ensures a == b
  {
    assert a.diffCoeff == OutputFields(a)[2..];
    assert b.diffCoeff == OutputFields(b)[2..];
  }
}
