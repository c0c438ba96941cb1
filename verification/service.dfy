/**
 * The service loop: the in-memory cache of ground-truth hits, the lookup
 * cascade behind a fine-grain request (cache, ground-truth table, analytic
 * shortcut, scheduled job), the per-mode dispatch of queued tasks, and the
 * merge and refresh of the result tables that closes every iteration.
 *
 * The database is modelled as the rows of its tables; what a query would
 * return from tables this model does not hold (the ground-truth table, the
 * scheduler's listing, the retrained learners) comes from a `World`.
 */
module Service {
  import opened Fallible
  import opened GlueTypes
  import opened Comparators
  import GroundTruth
  import Species
  import Scheduling
  import Learner
  import Polling

  /** A row of `BGKRESULTS` or `BGKFASTRESULTS`. */
  datatype ResultRow = ResultRow(tag: string, rank: int, req: int, out: BGKOutputs, provenance: Provenance)

  /** A remembered ground-truth hit: the request that found it and the stored answer. */
  datatype CacheEntry = CacheEntry(args: BGKInputs, out: BGKOutputs)

  // ------------------------------------------------------------------ cache

  /** Whether a cached entry answers request `x` (`icfComparator(inArgs, entry[0], eps)`). */
  predicate Hits(x: BGKInputs, eps: real, e: CacheEntry)
  {
    IcfComparator(x, e.args, eps)
  }

  /** The cache loop from entry `i` on, returning at the first hit. */
  function FirstHit(x: BGKInputs, eps: real, cache: seq<CacheEntry>, i: nat): Option<BGKOutputs>
    requires i <= |cache|
    decreases |cache| - i
  {
    if i == |cache| then None
    else if Hits(x, eps, cache[i]) then Some(cache[i].out)
    else FirstHit(x, eps, cache, i + 1)
  }

  /** `cacheCheck`: only BGK requests are looked up. */
  function CacheCheck(args: FgsArgs, eps: real, cache: seq<CacheEntry>): Option<BGKOutputs>
  {
    match args
    case BgkArgs(x) => FirstHit(x, eps, cache, 0)
    case BgkMassesArgs(_, _) => None
  }

  lemma {:induction false} FirstHitSpec(x: BGKInputs, eps: real, cache: seq<CacheEntry>, i: nat)
    requires i <= |cache|
    ensures FirstHit(x, eps, cache, i).Some? <==> exists k :: i <= k < |cache| && Hits(x, eps, cache[k])
    ensures FirstHit(x, eps, cache, i).Some? ==>
      exists k :: i <= k < |cache| && Hits(x, eps, cache[k]) && FirstHit(x, eps, cache, i).value == cache[k].out
        && forall j :: i <= j < k ==> !Hits(x, eps, cache[j])
    decreases |cache| - i
  {
    if i < |cache| && !Hits(x, eps, cache[i]) {
      FirstHitSpec(x, eps, cache, i + 1);
    }
  }

  /**
   * The cache answers a BGK request iff some entry matches it, and then
   * with the answer of the earliest matching entry.
   */
  lemma CacheCheckSpec(x: BGKInputs, eps: real, cache: seq<CacheEntry>)
    ensures CacheCheck(BgkArgs(x), eps, cache).Some? <==> exists k :: 0 <= k < |cache| && Hits(x, eps, cache[k])
    ensures CacheCheck(BgkArgs(x), eps, cache).Some? ==>
      exists k :: 0 <= k < |cache| && Hits(x, eps, cache[k]) && CacheCheck(BgkArgs(x), eps, cache).value == cache[k].out
        && forall j :: 0 <= j < k ==> !Hits(x, eps, cache[j])
  {
    FirstHitSpec(x, eps, cache, 0);
  }

  lemma {:induction false} FirstHitAppend(x: BGKInputs, eps: real, cache: seq<CacheEntry>, e: CacheEntry, i: nat)
    requires i <= |cache|
    requires FirstHit(x, eps, cache, i).Some?
    ensures FirstHit(x, eps, cache + [e], i) == FirstHit(x, eps, cache, i)
    decreases |cache| - i
  {
    assert (cache + [e])[i] == cache[i];
    if !Hits(x, eps, cache[i]) {
      FirstHitAppend(x, eps, cache, e, i + 1);
    }
  }

  /** Appending to the cache never changes an answer it already gave. */
  lemma CacheAppendKeepsHits(args: FgsArgs, eps: real, cache: seq<CacheEntry>, e: CacheEntry)
    requires CacheCheck(args, eps, cache).Some?
    ensures CacheCheck(args, eps, cache + [e]) == CacheCheck(args, eps, cache)
  {
    FirstHitAppend(args.bgk, eps, cache, e, 0);
  }

  /** With a non-negative tolerance, a request whose hit was appended is answered from the cache afterwards. */
  lemma CacheRemembers(x: BGKInputs, y: BGKOutputs, eps: real, cache: seq<CacheEntry>)
    requires eps >= 0.0
    ensures CacheCheck(BgkArgs(x), eps, cache + [CacheEntry(x, y)]).Some?
  {
    var c := cache + [CacheEntry(x, y)];
    IcfComparatorReflexive(x, eps);
    assert Hits(x, eps, c[|cache|]);
    FirstHitSpec(x, eps, c, 0);
  }

  /** Requests of other solvers never hit. */
  lemma CacheIgnoresOtherSolvers(x: BGKInputs, masses: Vec4, eps: real, cache: seq<CacheEntry>)
    ensures CacheCheck(BgkMassesArgs(x, masses), eps, cache) == None
  {
  }

  // ----------------------------------------------------------- configuration

  /** The run configuration the loop reads once. */
  datatype Config = Config(
    defaultMode: Mode,
    tag: string,
    packet: SolverCode,
    backend: LearnerBackend,
    gndThreshold: int,
    relError: real,
    job: Scheduling.JobConfig,
    cwd: string,
    resultScript: string,
    fineDbPath: string,
    fineDbMode: int,
    user: Option<string>,
    password: Option<string>)

  /**
   * What the loop learns from outside the modelled tables: the rows the
   * ground-truth tolerance query returns for a request, the outcome of the
   * coupling estimate that decides whether the analytic solution suffices,
   * the transport formulas, the scheduler listings read while request
   * `req` waits for a slot, and the models a retraining would produce. The state keeps only
   * which backend was last trained, so that it stays comparable.
   */
  datatype World = World(
    groundTruth: BGKInputs -> seq<GroundTruth.GndRow>,
    weaklyCoupled: BGKInputs -> bool,
    physics: Species.Physics,
    listings: int -> seq<string>,
    network: Learner.InterpModel,
    forest: Learner.InterpModel)

  /** The tables and in-memory state the loop carries from one iteration to the next. */
  datatype State = State(
    results: seq<ResultRow>,
    buffer: seq<ResultRow>,
    fineResults: seq<ResultRow>,
    alLog: seq<(BGKInputs, BGKOutputs)>,
    cache: seq<CacheEntry>,
    fs: Scheduling.JobFs,
    trained: Option<LearnerBackend>,
    gndCount: int,
    keepSpinning: bool)

  /** Nothing but the job files may differ. */
  predicate SameTables(a: State, b: State)
  {
    a.results == b.results && a.fineResults == b.fineResults && a.alLog == b.alLog
    && a.trained == b.trained && a.gndCount == b.gndCount && a.keepSpinning == b.keepSpinning
  }

  // ------------------------------------------------------------ job launch

  /** `eps_traces` of the script writer, the same in both fine-grain modes. */
  const EpsTraces: real := 0.001

  /** `writeBGKLammpsInputs` hands the script writer the masses of two species only. */
  const BgkMassCount: nat := 2

  /**
   * `writeBGKLammpsInputs`: only the two fine-grain modes have run
   * parameters, and a request with species 2 or 3 present fails indexing
   * the two-entry mass array.
   */
  function WriteLammpsInputs(x: BGKInputs, mode: Mode): (r: Result<seq<string>>)
    ensures r.Ok? ==> mode == FGS || mode == FastFGS
    ensures (mode == FGS || mode == FastFGS) ==>
              (r.Ok? <==> Species.LammpsScripts(x.density, EpsTraces, BgkMassCount).Ok?)
    ensures x.density[2] != 0.0 || x.density[3] != 0.0 ==> r.Err?
  {
    Species.UnweighedSpeciesFail(x.density, EpsTraces, BgkMassCount);
    if mode != FGS && mode != FastFGS then Err("Using Unsupported FGS Mode")
    else
      var s := Species.LammpsScripts(x.density, EpsTraces, BgkMassCount);
      if s.Err? then Err(s.msg) else Ok(s.value.1)
  }

  /**
   * The busy-wait on `getQueueUsability`: the listings read one after the
   * other until one admits. Running out of listings means the service is
   * still waiting.
   */
  function AwaitAdmission(cfg: Scheduling.JobConfig, listings: seq<string>): (r: Result<bool>)
    ensures r.Err? <==> listings != [] && cfg.scheduler == OtherScheduler
    ensures r == Ok(true) <==>
      exists k :: 0 <= k < |listings| && Scheduling.QueueUsable(cfg, listings[k]) == Ok(true)
    decreases |listings|
  {
    if listings == [] then Ok(false)
    else
      var u := Scheduling.QueueUsable(cfg, listings[0]);
      if u.Err? then Err(u.msg)
      else if u.value then Ok(true)
      else
        var rest := AwaitAdmission(cfg, listings[1..]);
        assert forall k :: 1 <= k < |listings| ==> listings[k] == listings[1..][k - 1];
        rest
  }

  /** Arguments of the ingestion command the job script ends with. */
  function Ingest(cfg: Config, rank: int, req: int, mode: Mode): Scheduling.IngestArgs
  {
    Scheduling.IngestArgs(cfg.tag, rank, req, cfg.fineDbPath, ModeCode(mode), SolverCodeValue(cfg.packet),
                          cfg.fineDbMode, cfg.user, cfg.password)
  }

  /** A new row of the fast results buffer. */
  function Buffered(st: State, row: ResultRow): State
  {
    st.(buffer := st.buffer + [row])
  }

  // ---------------------------------------------------------------- cascade

  /**
   * `queueFGSJob`: answer from the cache; on a miss, from the last
   * ground-truth row with the current version (remembering it in the
   * cache); failing that, from the analytic solution when the plasma is
   * weakly coupled; otherwise wait for a queue slot and launch one job.
   */
  function QueueFGSJob(cfg: Config, w: World, st: State, rank: int, req: int, x: BGKInputs, mode: Mode): (r: Result<State>)
    ensures r.Ok? ==> SameTables(st, r.value)
    ensures r.Ok? ==> |r.value.buffer| <= |st.buffer| + 1 && st.buffer <= r.value.buffer
    ensures r.Ok? ==> |r.value.fs.launched| <= |st.fs.launched| + 1
  {
    var cached := CacheCheck(BgkArgs(x), cfg.relError, st.cache);
    var found := if cached.Some? then cached else GroundTruth.LastVersionMatch(w.groundTruth(x));
    var cache := if cached.None? && found.Some? then st.cache + [CacheEntry(x, found.value)] else st.cache;
    if found.Some? then
      Ok(Buffered(st.(cache := cache), ResultRow(cfg.tag, rank, req, found.value, ProvDB)))
    else if w.weaklyCoupled(x) then
      var a := Species.AnalyticSolution(w.physics, x.density, x.charges, x.temperature);
      if a.Err? then Err(a.msg)
      else Ok(Buffered(st, ResultRow(cfg.tag, rank, req, BGKOutputs(a.value.1, a.value.0, a.value.2), ProvFGS)))
    else
      var admitted := AwaitAdmission(cfg.job, w.listings(req));
      if admitted.Err? then Err(admitted.msg)
      else if !admitted.value then Err("no scheduler slot yet")
      else
        var fs := Scheduling.BuildAndLaunch(st.fs, cfg.job, cfg.packet, cfg.cwd, rank, req,
                                            WriteLammpsInputs(x, mode), cfg.resultScript, Ingest(cfg, rank, req, mode));
        if fs.Err? then Err(fs.msg) else Ok(st.(fs := fs.value))
  }

  /** A cache hit is answered with provenance DB without consulting the ground-truth table. */
  lemma CascadeCacheHit(cfg: Config, w: World, w2: World, st: State, rank: int, req: int, x: BGKInputs, mode: Mode)
    requires CacheCheck(BgkArgs(x), cfg.relError, st.cache).Some?
    ensures QueueFGSJob(cfg, w, st, rank, req, x, mode) ==
      Ok(Buffered(st, ResultRow(cfg.tag, rank, req, CacheCheck(BgkArgs(x), cfg.relError, st.cache).value, ProvDB)))
    ensures QueueFGSJob(cfg, w, st, rank, req, x, mode) == QueueFGSJob(cfg, w2, st, rank, req, x, mode)
  {
  }

  /** On a cache miss a ground-truth hit is answered with provenance DB and appended to the cache. */
  lemma CascadeTableHit(cfg: Config, w: World, st: State, rank: int, req: int, x: BGKInputs, mode: Mode)
    requires CacheCheck(BgkArgs(x), cfg.relError, st.cache).None?
    requires GroundTruth.LastVersionMatch(w.groundTruth(x)).Some?
    ensures var y := GroundTruth.LastVersionMatch(w.groundTruth(x)).value;
      QueueFGSJob(cfg, w, st, rank, req, x, mode) ==
        Ok(Buffered(st.(cache := st.cache + [CacheEntry(x, y)]), ResultRow(cfg.tag, rank, req, y, ProvDB)))
  {
  }

  /** Without any stored answer, a weakly coupled request gets the analytic solution, recorded as provenance FGS. */
  lemma CascadeAnalytic(cfg: Config, w: World, st: State, rank: int, req: int, x: BGKInputs, mode: Mode)
    requires CacheCheck(BgkArgs(x), cfg.relError, st.cache).None?
    requires GroundTruth.LastVersionMatch(w.groundTruth(x)).None?
    requires w.weaklyCoupled(x)
    requires x.density[0] != 0.0 || x.density[1] != 0.0
    ensures QueueFGSJob(cfg, w, st, rank, req, x, mode).Ok?
    ensures var r := QueueFGSJob(cfg, w, st, rank, req, x, mode).value;
      r.cache == st.cache && r.fs == st.fs && |r.buffer| == |st.buffer| + 1
      && r.buffer[|st.buffer|].provenance == ProvFGS
  {
  }

  /**
   * A job is launched only on the fallback path and only after a listing
   * admitted it; the launch appends exactly the request's script, once.
   */
  lemma CascadeLaunch(cfg: Config, w: World, st: State, rank: int, req: int, x: BGKInputs, mode: Mode)
    requires QueueFGSJob(cfg, w, st, rank, req, x, mode).Ok?
    requires QueueFGSJob(cfg, w, st, rank, req, x, mode).value.fs.launched != st.fs.launched
    ensures CacheCheck(BgkArgs(x), cfg.relError, st.cache).None?
    ensures GroundTruth.LastVersionMatch(w.groundTruth(x)).None? && !w.weaklyCoupled(x)
    ensures exists k :: 0 <= k < |w.listings(req)| && Scheduling.QueueUsable(cfg.job, w.listings(req)[k]) == Ok(true)
    ensures QueueFGSJob(cfg, w, st, rank, req, x, mode).value.fs.launched ==
      st.fs.launched + [Scheduling.ScriptPath(cfg.cwd, Scheduling.JobDirName(cfg.tag, rank, req))]
    ensures QueueFGSJob(cfg, w, st, rank, req, x, mode).value.buffer == st.buffer
  {
  }

  // ---------------------------------------------------------------- dispatch

  /** The mode a task is served in: the requested one, unless it asks for the run default. */
  function EffectiveMode(requested: Mode, default: Mode): (m: Mode)
    ensures requested != Default ==> m == requested
    ensures requested == Default ==> m == default
    ensures m == Default ==> default == Default
  {
    if requested != Default then requested else default
  }

  /** The FAKE stencil: all zeros but the eighth diffusion coefficient, the mean of three request fields. */
  function FakeOutputs(x: BGKInputs): (y: BGKOutputs)
    ensures y.viscosity == 0.0 && y.thermalConductivity == 0.0
    ensures forall k :: 0 <= k < 10 && k != 7 ==> y.diffCoeff[k] == 0.0
  {
    var diff := Zeros10()[7 := (x.temperature + x.density[0] + x.charges[3]) / 3.0];
    BGKOutputs(0.0, 0.0, diff)
  }

  /**
   * The serial sniff test encodes a cell of its 1-D grid as a request
   * (value as temperature, left neighbour as the first density, right
   * neighbour as the last charge) and expects the smoothed value
   * `(right + val + left) / 3` back in the eighth coefficient.
   */
  lemma FakeStencilIsSmoothing(left: real, val: real, right: real, density: Vec4, charges: Vec4)
    requires density[0] == left && charges[3] == right
    ensures FakeOutputs(BGKInputs(val, density, charges)).diffCoeff[7] == (right + val + left) / 3.0
  {
  }

  /** The FAKE branch: BGK only, answered by the stencil with provenance FAKE. */
  function FakeTask(cfg: Config, st: State, t: Polling.Task): (r: Result<State>)
    ensures r.Ok? <==> cfg.packet == Bgk
    ensures r.Ok? ==> r.value.(buffer := st.buffer) == st && |r.value.buffer| == |st.buffer| + 1 && st.buffer <= r.value.buffer
    ensures r.Ok? ==> r.value.buffer[|st.buffer|] == ResultRow(cfg.tag, t.rank, t.req, FakeOutputs(t.args), ProvFake)
  {
    if cfg.packet != Bgk then Err("Using Unsupported Solver Code")
    else Ok(Buffered(st, ResultRow(cfg.tag, t.rank, t.req, FakeOutputs(t.args), ProvFake)))
  }

  /**
   * The ANALYTIC branch: BGK only, two species at most, answered by the
   * analytic formulas with provenance ANALYTIC.
   */
  function AnalyticTask(cfg: Config, w: World, st: State, t: Polling.Task): (r: Result<State>)
    ensures r.Ok? <==> cfg.packet == Bgk && t.args.density[2] == 0.0 && t.args.density[3] == 0.0
                       && (t.args.density[0] != 0.0 || t.args.density[1] != 0.0)
    ensures r.Ok? ==> r.value.(buffer := st.buffer) == st && |r.value.buffer| == |st.buffer| + 1 && st.buffer <= r.value.buffer
    ensures r.Ok? ==> r.value.buffer[|st.buffer|].provenance == ProvAnalytic
  {
    if cfg.packet != Bgk then Err("Using Unsupported Analytic Solution")
    else if t.args.density[2] != 0.0 || t.args.density[3] != 0.0 then
      Err("Using Analytic ICF with more than two species")
    else
      var a := Species.AnalyticSolution(w.physics, t.args.density, t.args.charges, t.args.temperature);
      if a.Err? then Err(a.msg)
      else Ok(Buffered(st, ResultRow(cfg.tag, t.rank, t.req, BGKOutputs(a.value.1, a.value.0, a.value.2), ProvAnalytic)))
  }

  /** Dispatch of one queued task by its effective mode. */
  function ProcessTask(cfg: Config, w: World, st: State, t: Polling.Task): (r: Result<State>)
    ensures r.Ok? && EffectiveMode(t.mode, cfg.defaultMode) == Kill ==> r.value == st.(keepSpinning := false)
    ensures r.Ok? && EffectiveMode(t.mode, cfg.defaultMode) != Kill ==> r.value.keepSpinning == st.keepSpinning
    ensures r.Ok? ==> st.buffer <= r.value.buffer && r.value.results == st.results && r.value.fineResults == st.fineResults
  {
    var mode := EffectiveMode(t.mode, cfg.defaultMode);
    match mode
    case FGS => QueueFGSJob(cfg, w, st, t.rank, t.req, t.args, FGS)
    case FastFGS => QueueFGSJob(cfg, w, st, t.rank, t.req, t.args, FastFGS)
    case ActiveLearner => LearnerTask(cfg, w, st, t)
    case Fake => FakeTask(cfg, st, t)
    case Analytic => AnalyticTask(cfg, w, st, t)
    case Kill => Ok(st.(keepSpinning := false))
    case Mystic => Ok(st)
    case Default => Ok(st)
  }

  /**
   * The learner branch: ask the current model, log its prediction, and
   * either accept it (provenance ACTIVELEARNER) or fall back to a
   * fine-grain job. With no model trained yet the name is unbound; a model
   * that returns no prediction cannot be logged.
   */
  function LearnerTask(cfg: Config, w: World, st: State, t: Polling.Task): (r: Result<State>)
    ensures r.Ok? ==> SameTables(st, r.value.(alLog := st.alLog)) && |r.value.alLog| == |st.alLog| + 1
    ensures r.Ok? ==> st.buffer <= r.value.buffer
  {
    if st.trained.None? then Err("local variable 'interpModel' referenced before assignment")
    else
      var m := Learner.GetInterpModel(st.trained.value, w.network, w.forest);
      var e := if m.Err? then Err(m.msg) else Learner.Evaluate(m.value, t.args);
      if e.Err? then Err(e.msg)
      else
        var (legit, output) := e.value;
        if cfg.packet != Bgk then Err("Using Unsupported Solver Code")
        else if output.None? then Err("'NoneType' object has no attribute 'Viscosity'")
        else
          var logged := st.(alLog := st.alLog + [(t.args, output.value)]);
          if legit then Ok(Buffered(logged, ResultRow(cfg.tag, t.rank, t.req, output.value, ProvLearner)))
          else QueueFGSJob(cfg, w, logged, t.rank, t.req, t.args, FGS)
  }

  /** The model the last retrain built, from the backend it was built with. */
  function Model(w: World, st: State): Result<Learner.InterpModel>
    requires st.trained.Some?
  {
    Learner.GetInterpModel(st.trained.value, w.network, w.forest)
  }

  /** An accepted prediction is buffered with provenance ACTIVELEARNER, after being logged. */
  lemma LearnerAccepted(cfg: Config, w: World, st: State, t: Polling.Task)
    requires cfg.packet == Bgk && st.trained.Some?
    requires Model(w, st).Ok? && Learner.Evaluate(Model(w, st).value, t.args).Ok?
    requires Learner.Evaluate(Model(w, st).value, t.args).value.0
    requires Learner.Evaluate(Model(w, st).value, t.args).value.1.Some?
    ensures var y := Learner.Evaluate(Model(w, st).value, t.args).value.1.value;
      LearnerTask(cfg, w, st, t) ==
        Ok(st.(alLog := st.alLog + [(t.args, y)], buffer := st.buffer + [ResultRow(cfg.tag, t.rank, t.req, y, ProvLearner)]))
  {
  }

  /** Under the debugging stub every learner task fails: the stub offers no prediction to log. */
  lemma LearnerStubFails(cfg: Config, w: World, st: State, t: Polling.Task)
    requires st.trained == Some(FakeBackend)
    ensures LearnerTask(cfg, w, st, t).Err?
  {
    Learner.StubNeverAccepts(t.args);
  }

  /** The queued tasks in order; the first failure stops the loop. */
  function ProcessTasks(cfg: Config, w: World, st: State, tasks: seq<Polling.Task>): Result<State>
    decreases |tasks|
  {
    if tasks == [] then Ok(st)
    else
      var r := ProcessTask(cfg, w, st, tasks[0]);
      if r.Err? then r else ProcessTasks(cfg, w, r.value, tasks[1..])
  }

  /** A task is a kill request in this run. */
  predicate Kills(cfg: Config, t: Polling.Task)
  {
    EffectiveMode(t.mode, cfg.defaultMode) == Kill
  }

  /**
   * A KILL task only clears the spin flag: the rest of the batch is still
   * served, and the flag is down afterwards iff it was down before or some
   * task asked to kill.
   */
  lemma {:induction false} ProcessTasksKill(cfg: Config, w: World, st: State, tasks: seq<Polling.Task>)
    requires ProcessTasks(cfg, w, st, tasks).Ok?
    ensures ProcessTasks(cfg, w, st, tasks).value.keepSpinning <==>
      st.keepSpinning && forall k :: 0 <= k < |tasks| ==> !Kills(cfg, tasks[k])
    ensures ProcessTasks(cfg, w, st, tasks).value.results == st.results
    ensures ProcessTasks(cfg, w, st, tasks).value.fineResults == st.fineResults
    ensures st.buffer <= ProcessTasks(cfg, w, st, tasks).value.buffer
    decreases |tasks|
  {
    if tasks != [] {
      var r := ProcessTask(cfg, w, st, tasks[0]).value;
      ProcessTasksKill(cfg, w, r, tasks[1..]);
      assert forall k :: 1 <= k < |tasks| ==> tasks[k] == tasks[1..][k - 1];
    }
  }

  // ---------------------------------------------------------------- retrain

  /** Retrain when learning by default and the ground truth grew past the threshold, or on the first pass. */
  predicate RetrainDue(defaultMode: Mode, newCount: int, lastCount: int, threshold: int)
  {
    defaultMode == ActiveLearner && (newCount - lastCount > threshold || lastCount == 0)
  }

  /** The retraining step at the top of every iteration. */
  function Retrain(cfg: Config, w: World, st: State, newCount: int): (r: Result<State>)
    ensures !RetrainDue(cfg.defaultMode, newCount, st.gndCount, cfg.gndThreshold) ==> r == Ok(st)
    ensures RetrainDue(cfg.defaultMode, newCount, st.gndCount, cfg.gndThreshold) ==>
      (r.Ok? <==> cfg.backend != MysticBackend)
    ensures r.Ok? && RetrainDue(cfg.defaultMode, newCount, st.gndCount, cfg.gndThreshold) ==>
      r.value.gndCount == newCount && r.value.trained == Some(cfg.backend)
  {
    if !RetrainDue(cfg.defaultMode, newCount, st.gndCount, cfg.gndThreshold) then Ok(st)
    else
      var m := Learner.GetInterpModel(cfg.backend, w.network, w.forest);
      if m.Err? then Err(m.msg) else Ok(st.(trained := Some(cfg.backend), gndCount := newCount))
  }

  /** Without learning by default no model is ever built, so learner tasks fail. */
  lemma NoModelWithoutLearningDefault(cfg: Config, w: World, st: State, newCount: int)
    requires cfg.defaultMode != ActiveLearner
    ensures Retrain(cfg, w, st, newCount) == Ok(st)
  {
  }

  /** Right after a retrain the same count triggers another only through a negative threshold or a zero count. */
  lemma RetrainSettles(cfg: Config, w: World, st: State, newCount: int)
    requires Retrain(cfg, w, st, newCount).Ok?
    requires RetrainDue(cfg.defaultMode, newCount, st.gndCount, cfg.gndThreshold)
    ensures var next := Retrain(cfg, w, st, newCount).value;
      RetrainDue(cfg.defaultMode, newCount, next.gndCount, cfg.gndThreshold) <==>
        (cfg.gndThreshold < 0 || newCount == 0)
  {
  }

  // -------------------------------------------------------------- tier sync

  /** `mergeBufferTable`: the buffer rows move to the durable table. */
  function MergeBuffer(packet: SolverCode, st: State): (r: Result<State>)
    ensures r.Ok? <==> packet == Bgk
    ensures r.Ok? ==> r.value.buffer == [] && r.value.results == st.results + st.buffer
    ensures r.Ok? ==> multiset(r.value.results) == multiset(st.results) + multiset(st.buffer)
  {
    if packet != Bgk then Err("Using Unsupported Solver Code")
    else Ok(st.(results := st.results + st.buffer, buffer := []))
  }

  /** Merging twice is merging once. */
  lemma MergeIdempotent(st: State)
    ensures MergeBuffer(Bgk, st).Ok?
    ensures MergeBuffer(Bgk, MergeBuffer(Bgk, st).value) == MergeBuffer(Bgk, st)
  {
    assert st.results + st.buffer + [] == st.results + st.buffer;
  }

  /**
   * An insert statement as the driver sees it: a proper `VALUES` insert of
   * `n` placeholders, or a parenthesised placeholder list with no `VALUES`
   * keyword, which the driver rejects as a syntax error.
   */
  datatype Insert = InsertValues(n: nat) | InsertColumnList(n: nat)

  /** Executing one row insert into a 16-column results table. */
  function ExecuteInsert(stmt: Insert, table: seq<ResultRow>, row: ResultRow): (r: Result<seq<ResultRow>>)
    ensures r.Ok? <==> stmt == InsertValues(16)
    ensures r.Ok? ==> r.value == table + [row]
  {
    match stmt
    case InsertValues(n) => if n == 16 then Ok(table + [row]) else Err("table BGKRESULTS has 16 columns")
    case InsertColumnList(_) => Err("near \"?\": syntax error")
  }

  /** The row loop of the refresh, one insert per fine-tier row. */
  function InsertAll(stmt: Insert, table: seq<ResultRow>, rows: seq<ResultRow>): Result<seq<ResultRow>>
    decreases |rows|
  {
    if rows == [] then Ok(table)
    else
      var r := ExecuteInsert(stmt, table, rows[0]);
      if r.Err? then r else InsertAll(stmt, r.value, rows[1..])
  }

  /** `pullGlobalResultsToFastDBPython` as written: the placeholder list lacks `VALUES`. */
  function PullAsWritten(packet: SolverCode, st: State): Result<State>
  {
    if packet != Bgk then Err("pullGlobalResultsToFastDBPython: Using Unsupported Solver Code")
    else if st.fineResults == [] then Ok(st)
    else
      var t := InsertAll(InsertColumnList(16), st.results, st.fineResults);
      if t.Err? then Err(t.msg) else Ok(st.(results := t.value))
  }

  /** As written, the refresh fails as soon as the fine tier holds a single result. */
  lemma PullAsWrittenFails(st: State)
    requires st.fineResults != []
    ensures PullAsWritten(Bgk, st).Err?
  {
  }

  lemma {:induction false} InsertAllValues(table: seq<ResultRow>, rows: seq<ResultRow>)
    ensures InsertAll(InsertValues(16), table, rows) == Ok(table + rows)
    decreases |rows|
  {
    if rows != [] {
      assert ExecuteInsert(InsertValues(16), table, rows[0]) == Ok(table + [rows[0]]);
      assert InsertAll(InsertValues(16), table, rows) == InsertAll(InsertValues(16), table + [rows[0]], rows[1..]);
      InsertAllValues(table + [rows[0]], rows[1..]);
      assert rows == [rows[0]] + rows[1..];
      assert table + [rows[0]] + rows[1..] == table + rows;
    } else {
      assert table + rows == table;
    }
  }

  /**
   * `pullGlobalResultsToFastDBPython` with a `VALUES` insert: the refresh
   * appends exactly the fine tier's rows to the durable table and touches
   * nothing else.
   */
  function Pull(packet: SolverCode, st: State): (r: Result<State>)
    ensures r.Ok? <==> packet == Bgk
    ensures r.Ok? ==> r.value == st.(results := st.results + st.fineResults)
  {
    if packet != Bgk then Err("pullGlobalResultsToFastDBPython: Using Unsupported Solver Code")
    else if st.fineResults == [] then
      assert st.results + st.fineResults == st.results;
      Ok(st)
    else
      InsertAllValues(st.results, st.fineResults);
      Ok(st.(results := InsertAll(InsertValues(16), st.results, st.fineResults).value))
  }

  /** `pullGlobalResultsToFastDBAttach` is not supported at all. */
  function PullAttach(packet: SolverCode, st: State): (r: Result<State>)
    ensures r.Err?
  {
    Err("pullGlobalResultsToFastDBAttach: Currently Unsupported")
  }

  // -------------------------------------------------------------- iteration

  /** The polled rows of one source as entries; any row that cannot be decoded stops the loop. */
  function Entries(rows: seq<GroundTruth.ReqRow>, packet: SolverCode): (r: Result<seq<Polling.Entry>>)
    ensures r.Ok? <==> forall j :: 0 <= j < |rows| ==> GroundTruth.ProcessReqRow(rows[j], packet).Ok?
    ensures r.Ok? ==> |r.value| == |rows|
    ensures r.Ok? ==> forall j :: 0 <= j < |rows| ==>
      var d := GroundTruth.ProcessReqRow(rows[j], packet).value;
      r.value[j] == Polling.Entry(rows[j].req, d.1, d.0)
    decreases |rows|
  {
    if rows == [] then Ok([])
    else
      var d := GroundTruth.ProcessReqRow(rows[0], packet);
      var rest := Entries(rows[1..], packet);
      assert forall j :: 1 <= j < |rows| ==> rows[j] == rows[1..][j - 1];
      if d.Err? then Err(d.msg)
      else if rest.Err? then Err(rest.msg)
      else Ok([Polling.Entry(rows[0].req, d.value.1, d.value.0)] + rest.value)
  }

  /** The first `n` sources' rows all decode. */
  predicate Decodes(rows: seq<seq<GroundTruth.ReqRow>>, packet: SolverCode, n: nat)
    requires n <= |rows|
  {
    forall i :: 0 <= i < n ==> Entries(rows[i], packet).Ok?
  }

  lemma DecodesStep(rows: seq<seq<GroundTruth.ReqRow>>, packet: SolverCode, n: nat)
    requires n < |rows| && Decodes(rows, packet, n)
    ensures Decodes(rows, packet, n + 1) <==> Entries(rows[n], packet).Ok?
    ensures !Entries(rows[n], packet).Ok? ==> !Decodes(rows, packet, |rows|)
  {
  }

  /** The first `|next|` sources were polled into `next`, dequeuing `perSource`. */
  predicate PolledUpTo(packet: SolverCode, sources: seq<Polling.Source>, rows: seq<seq<GroundTruth.ReqRow>>,
                       next: seq<Polling.Source>, perSource: seq<seq<Polling.Task>>)
  {
    && |next| == |perSource| <= |sources| == |rows|
    && forall j :: 0 <= j < |next| ==>
         Entries(rows[j], packet).Ok? && Polling.Polled(sources[j], Entries(rows[j], packet).value, next[j], perSource[j])
  }

  lemma PolledExtend(packet: SolverCode, sources: seq<Polling.Source>, rows: seq<seq<GroundTruth.ReqRow>>,
                     next: seq<Polling.Source>, perSource: seq<seq<Polling.Task>>, n: Polling.Source, tasks: seq<Polling.Task>)
    requires PolledUpTo(packet, sources, rows, next, perSource) && |next| < |sources|
    requires Entries(rows[|next|], packet).Ok?
    requires Polling.Polled(sources[|next|], Entries(rows[|next|], packet).value, n, tasks)
    ensures PolledUpTo(packet, sources, rows, next + [n], perSource + [tasks])
    ensures Polling.Concat(perSource + [tasks]) == Polling.Concat(perSource) + tasks
  {
    assert (perSource + [tasks])[..|perSource|] == perSource;
    forall j | 0 <= j < |next| + 1
      ensures Entries(rows[j], packet).Ok?
      ensures Polling.Polled(sources[j], Entries(rows[j], packet).value, (next + [n])[j], (perSource + [tasks])[j])
    {
      if j < |next| {
        assert (next + [n])[j] == next[j] && (perSource + [tasks])[j] == perSource[j];
      }
    }
  }

  /** Every polled source keeps the invariant, whatever it had enqueued. */
  lemma PolledAllKeepInv(packet: SolverCode, sources: seq<Polling.Source>, rows: seq<seq<GroundTruth.ReqRow>>,
                         next: seq<Polling.Source>, perSource: seq<seq<Polling.Task>>)
    requires PolledUpTo(packet, sources, rows, next, perSource) && |next| == |sources|
    ensures Polling.AllKeepInv(sources, next, perSource)
  {
    forall i, enqueued | 0 <= i < |sources| && Polling.Inv(sources[i], enqueued)
      ensures Polling.Inv(next[i], enqueued + Polling.Elems(Polling.TaskIds(perSource[i])))
    {
      Polling.PolledKeepsInv(sources[i], Entries(rows[i], packet).value, next[i], perSource[i]);
    }
  }

  /**
   * The polling half of a pass: every source in order, the tasks queued in
   * source order. `perSource[i]` is what the poll of source `i` dequeued.
   */
  method PollAll(packet: SolverCode, sources: seq<Polling.Source>, rows: seq<seq<GroundTruth.ReqRow>>)
    returns (r: Result<(seq<Polling.Source>, seq<Polling.Task>)>, perSource: seq<seq<Polling.Task>>)
    requires |rows| == |sources|
    ensures r.Ok? <==> Decodes(rows, packet, |rows|)
    ensures r.Ok? ==> |r.value.0| == |sources| && |perSource| == |sources|
    ensures r.Ok? ==> forall i :: 0 <= i < |sources| ==>
      r.value.0[i].rank == sources[i].rank && r.value.0[i].latest >= sources[i].latest
    ensures r.Ok? ==> r.value.1 == Polling.Concat(perSource)
    ensures r.Ok? ==> PolledUpTo(packet, sources, rows, r.value.0, perSource)
    ensures r.Ok? ==> Polling.AllKeepInv(sources, r.value.0, perSource)
  {
    var queue: seq<Polling.Task> := [];
    var next: seq<Polling.Source> := [];
    perSource := [];
    var i := 0;
    while i < |sources|
      invariant 0 <= i <= |sources| && |next| == i && |perSource| == i
      invariant Decodes(rows, packet, i)
      invariant queue == Polling.Concat(perSource)
      invariant PolledUpTo(packet, sources, rows, next, perSource)
    {
      var entries := Entries(rows[i], packet);
      DecodesStep(rows, packet, i);
      if entries.Err? {
        return Err(entries.msg), perSource;
      }
      var n, tasks := Polling.PollSource(sources[i], entries.value);
      PolledExtend(packet, sources, rows, next, perSource, n, tasks);
      next := next + [n];
      perSource := perSource + [tasks];
      queue := queue + tasks;
      i := i + 1;
    }
    PolledAllKeepInv(packet, sources, rows, next, perSource);
    return Ok((next, queue)), perSource;
  }

  /**
   * The serving half of a pass: the queued tasks, then the merge and the
   * refresh. The result table gains, in order, the old buffer, every answer
   * the tasks buffered, and the fine-tier table.
   */
  function Serve(cfg: Config, w: World, st: State, queue: seq<Polling.Task>): (r: Result<State>)
    ensures r.Ok? <==> ProcessTasks(cfg, w, st, queue).Ok?
    ensures r.Ok? ==> var served := ProcessTasks(cfg, w, st, queue).value;
      r.value == served.(results := st.results + served.buffer + st.fineResults, buffer := [])
    ensures r.Ok? ==> r.value.buffer == []
    ensures r.Ok? ==> st.results + st.buffer <= r.value.results
    ensures r.Ok? ==> |r.value.results| >= |st.results| + |st.buffer| + |st.fineResults|
                      && r.value.results[|r.value.results| - |st.fineResults|..] == st.fineResults
    ensures r.Ok? ==> (r.value.keepSpinning <==> st.keepSpinning && forall k :: 0 <= k < |queue| ==> !Kills(cfg, queue[k]))
  {
    var s1 := ProcessTasks(cfg, w, st, queue);
    if s1.Err? then Err(s1.msg)
    else
      ProcessTasksKill(cfg, w, st, queue);
      var s2 := MergeBuffer(Bgk, s1.value);
      var s3 := Pull(Bgk, s2.value);
      assert s3.value.results == st.results + s1.value.buffer + st.fineResults;
      s3
  }

  /**
   * One pass of `pollAndProcessFGSRequests`: retrain when due, poll every
   * source with the rows `rows[i]` its select returned, serve the queued
   * tasks in order, then merge the buffer and refresh from the fine tier.
   * `newCount` is the ground-truth count read at the top of the pass.
   */
  method Iterate(cfg: Config, w: World, st: State, sources: seq<Polling.Source>,
                 rows: seq<seq<GroundTruth.ReqRow>>, newCount: int)
    returns (r: Result<(State, seq<Polling.Source>, seq<Polling.Task>)>, perSource: seq<seq<Polling.Task>>)
    requires |rows| == |sources|
    ensures r.Ok? ==> cfg.packet == Bgk
    ensures r.Ok? ==> |r.value.1| == |sources| && |perSource| == |sources|
    ensures r.Ok? ==> forall i :: 0 <= i < |sources| ==>
      r.value.1[i].rank == sources[i].rank && r.value.1[i].latest >= sources[i].latest
    ensures r.Ok? ==> r.value.2 == Polling.Concat(perSource)
    ensures r.Ok? ==> PolledUpTo(Bgk, sources, rows, r.value.1, perSource)
    ensures r.Ok? ==> Polling.AllKeepInv(sources, r.value.1, perSource)
    ensures r.Ok? ==> Retrain(cfg, w, st, newCount).Ok?
    ensures r.Ok? ==> Serve(cfg, w, Retrain(cfg, w, st, newCount).value, r.value.2) == Ok(r.value.0)
    ensures r.Ok? ==> r.value.0.buffer == []
    ensures r.Ok? ==> st.results + st.buffer <= r.value.0.results
    ensures r.Ok? ==> (r.value.0.keepSpinning <==>
      st.keepSpinning && forall k :: 0 <= k < |r.value.2| ==> !Kills(cfg, r.value.2[k]))
  {
    perSource := [];
    if cfg.packet != Bgk {
      return Err("Using Unsupported Solver Code"), perSource;
    }
    var s0 := Retrain(cfg, w, st, newCount);
    if s0.Err? {
      return Err(s0.msg), perSource;
    }
    var polled;
    polled, perSource := PollAll(cfg.packet, sources, rows);
    if polled.Err? {
      return Err(polled.msg), perSource;
    }
    var (next, queue) := polled.value;
    var s := Serve(cfg, w, s0.value, queue);
    if s.Err? {
      return Err(s.msg), perSource;
    }
    return Ok((s.value, next, queue)), perSource;
  }
}
