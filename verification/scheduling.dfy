// Admission control and fine-grain job preparation of the service: parsing
// the scheduler's listing into a job count, deciding whether the queue has
// room, and laying out the per-request job directory and script.

module Scheduling {
  import opened Fallible
  import opened Text
  import opened GlueTypes

  /** `sys.maxsize` of a 64-bit interpreter. */
  const MaxSize: int := 0x7FFF_FFFF_FFFF_FFFF

  /** A parsed scheduler listing: the job count and the lines after the header. */
  datatype QueueState = QueueState(count: int, jobs: seq<string>)

  /**
   * The shape shared by every listing parser: empty output yields
   * `unreachable`, otherwise the first line is a header and each further
   * line is one job.
   */
  function ParseListing(out: string, unreachable: int): (q: QueueState)
    ensures out == "" ==> q == QueueState(unreachable, [])
    ensures out != "" ==> q.count == |q.jobs|
    ensures out != "" ==> forall j :: 0 <= j < |q.jobs| ==> NoBreaks(q.jobs[j])
  {
    if out == "" then QueueState(unreachable, [])
    else
      var lines := SplitLines(out);
      SplitLinesNoBreaks(out);
      if |lines| > 1 then QueueState(|lines| - 1, lines[1..]) else QueueState(0, [])
  }

  /** The service's `getNumberOfJobsIn{Slurm,Flux}Queue`: unreachable means "full". */
  function ServiceQueueState(out: string): QueueState
  {
    ParseListing(out, MaxSize)
  }

  /** The stand-alone `getSlurmQueue`: unreachable is the sentinel -1. */
  function SlurmQueue(out: string): QueueState
  {
    ParseListing(out, -1)
  }

  /** A listing with a header line and one line per job parses back to those jobs. */
  lemma ListingRoundTrip(header: string, jobs: seq<string>, unreachable: int)
    requires NoBreaks(header)
    requires forall j :: 0 <= j < |jobs| ==> NoBreaks(jobs[j])
    ensures ParseListing(Lines([header] + jobs), unreachable) == QueueState(|jobs|, jobs)
  {
    var ls := [header] + jobs;
    assert forall j :: 0 <= j < |ls| ==> NoBreaks(ls[j]);
    SplitLinesOfLines(ls);
    assert Lines(ls) != "";
    assert ls[1..] == jobs;
  }

  /** The stand-alone parser's count is the list length unless it is the -1 sentinel. */
  lemma SlurmQueueCount(out: string)
    ensures SlurmQueue(out).count >= 0 ==> SlurmQueue(out).count == |SlurmQueue(out).jobs|
    ensures SlurmQueue(out).count == -1 <==> out == ""
  {
  }

  /**
   * The test driver's `count < maxJobs` check: for any positive maximum it
   * admits when the scheduler could not be queried at all.
   */
  function TesterAdmits(out: string, maxJobs: int): (admit: bool)
    ensures out == "" && maxJobs > 0 ==> admit
    ensures out != "" ==> (admit <==> |SlurmQueue(out).jobs| < maxJobs)
  {
    var q := SlurmQueue(out);
    q.count < maxJobs
  }

  /** The scheduler-related configuration entries. */
  datatype JobConfig = JobConfig(
    scheduler: Scheduler,
    provisioning: Provisioning,
    maxSlurmJobs: int,
    fluxConcurrentJobs: int,
    slurmNodes: int,
    slurmPartition: string,
    slurmThreadsPerRank: int,
    blockingRanks: int,
    fluxNodes: int,
    fluxSlots: int,
    fluxCoresPerSlot: int,
    spackRoot: Option<string>,
    spackLammps: string,
    spackCompilerAndMpi: string,
    lammpsPath: Option<string>)

  /**
   * `getQueueUsability`, given the listing printed by the configured
   * scheduler: Slurm and Flux have room iff the parsed count is below their
   * maximum, a blocking run always has room, anything else is an error.
   */
  function QueueUsable(cfg: JobConfig, listing: string): (r: Result<bool>)
    ensures r.Ok? <==> cfg.scheduler != OtherScheduler
    ensures cfg.scheduler == Blocking ==> r == Ok(true)
    ensures cfg.scheduler == Slurm && listing == "" ==> r == Ok(MaxSize < cfg.maxSlurmJobs)
    ensures cfg.scheduler == Flux && listing == "" ==> r == Ok(MaxSize < cfg.fluxConcurrentJobs)
  {
    match cfg.scheduler
    case Slurm => Ok(ServiceQueueState(listing).count < cfg.maxSlurmJobs)
    case Blocking => Ok(true)
    case Flux => Ok(ServiceQueueState(listing).count < cfg.fluxConcurrentJobs)
    case OtherScheduler => Err("Using Unsupported Scheduler Mode")
  }

  /** Admission for a listing with a header and one line per job. */
  lemma QueueUsableListing(cfg: JobConfig, header: string, jobs: seq<string>)
    requires cfg.scheduler == Slurm || cfg.scheduler == Flux
    requires NoBreaks(header)
    requires forall j :: 0 <= j < |jobs| ==> NoBreaks(jobs[j])
    ensures cfg.scheduler == Slurm ==> QueueUsable(cfg, Lines([header] + jobs)) == Ok(|jobs| < cfg.maxSlurmJobs)
    ensures cfg.scheduler == Flux ==> QueueUsable(cfg, Lines([header] + jobs)) == Ok(|jobs| < cfg.fluxConcurrentJobs)
  {
    ListingRoundTrip(header, jobs, MaxSize);
  }

  /** An unreachable scheduler never has room for any maximum up to `sys.maxsize`. */
  lemma UnreachableNeverAdmits(cfg: JobConfig)
    requires cfg.scheduler == Slurm || cfg.scheduler == Flux
    requires cfg.scheduler == Slurm ==> cfg.maxSlurmJobs <= MaxSize
    requires cfg.scheduler == Flux ==> cfg.fluxConcurrentJobs <= MaxSize
    ensures QueueUsable(cfg, "") == Ok(false)
  {
  }

  const Shebang: string := "#!/bin/bash\n"

  /** Line that selects the parallel launcher, per scheduler. */
  function LauncherLine(s: Scheduler): string
  {
    match s
    case Slurm => "export LAUNCHER_BIN=srun\n"
    case Blocking => "export LAUNCHER_BIN=mpirun\n"
    case Flux => "export LAUNCHER_BIN=\"flux mini run\"\n"
    case OtherScheduler => ""
  }

  /** `jobScriptBoilerplate`: the header lines written for the configured scheduler. */
  function JobHeader(cfg: JobConfig, outDir: string): (r: Result<seq<string>>)
    ensures r.Ok? <==> cfg.scheduler != OtherScheduler
    ensures r.Ok? ==> |r.value| == (if cfg.scheduler == Slurm then 7 else 3) && r.value[0] == Shebang
    ensures r.Ok? ==> r.value[if cfg.scheduler == Slurm then 5 else 1] == LauncherLine(cfg.scheduler)
  {
    match cfg.scheduler
    case Slurm =>
      Ok([Shebang,
          "#SBATCH -N " + IntToString(cfg.slurmNodes) + "\n",
          "#SBATCH -o " + outDir + "-%j.out\n",
          "#SBATCH -e " + outDir + "-%j.err\n",
          "#SBATCH -p " + cfg.slurmPartition + "\n",
          LauncherLine(Slurm),
          "export JOB_DISTR_ARGS=\"-n $((`lstopo --only pu | wc -l` * ${SLURM_NNODES} / "
            + IntToString(cfg.slurmThreadsPerRank) + "  ))\"\n"])
    case Blocking =>
      Ok([Shebang,
          LauncherLine(Blocking),
          "export JOB_DISTR_ARGS=\"-n " + IntToString(cfg.blockingRanks) + "\"\n"])
    case Flux =>
      Ok([Shebang,
          LauncherLine(Flux),
          "export JOB_DISTR_ARGS=\"" + "-N " + IntToString(cfg.fluxNodes)
            + " -n " + IntToString(cfg.fluxSlots)
            + " -c " + IntToString(cfg.fluxCoresPerSlot) + "\"\n"])
    case OtherScheduler => Err("Using Unsupported Scheduler Mode")
  }

  /** Different schedulers never produce the same header. */
  lemma JobHeadersDiffer(c1: JobConfig, d1: string, c2: JobConfig, d2: string)
    requires c1.scheduler != OtherScheduler && c2.scheduler != OtherScheduler
    requires c1.scheduler != c2.scheduler
    ensures JobHeader(c1, d1) != JobHeader(c2, d2)
  {
    var r1, r2 := JobHeader(c1, d1), JobHeader(c2, d2);
    if c1.scheduler != Slurm && c2.scheduler != Slurm {
      LauncherLinesDiffer();
      assert r1.value[1] != r2.value[1];
    } else {
      assert |r1.value| != |r2.value|;
    }
  }

  lemma LauncherLinesDiffer()
    ensures LauncherLine(Blocking) != LauncherLine(Flux)
  {
    assert |LauncherLine(Blocking)| != |LauncherLine(Flux)|;
  }

  /** `lammpsProvisioningBoilerplate`: lines that make `LAMMPS_BIN` available. */
  function ProvisioningLines(cfg: JobConfig): (r: Result<seq<string>>)
    ensures r.Ok? <==> cfg.provisioning != OtherProvisioning
    ensures r.Ok? && cfg.provisioning == Spack ==> |r.value| == (if cfg.spackRoot.Some? then 13 else 10)
    ensures r.Ok? && cfg.provisioning == Manual ==> |r.value| == 1
  {
    match cfg.provisioning
    case Spack =>
      var root := if cfg.spackRoot.Some? then
        ["if [ -z \"${SPACK_ROOT}\" ]; then\n", "\texport SPACK_ROOT=" + cfg.spackRoot.value + "\n", "fi\n"]
      else [];
      var package := cfg.spackLammps + " " + cfg.spackCompilerAndMpi;
      Ok(root + ["if [ -n \"${GLUE_OVERRIDE}\" ]; then\n",
                 "\texport LAMMPS_BIN=`which lmp`\n",
                 "else\n",
                 "\tsource $SPACK_ROOT/share/spack/setup-env.sh\n",
                 "\tspack env create -d .\n",
                 "\tspack env activate `pwd`\n",
                 "\tspack install " + package + "\n",
                 "\tspack load " + package + "\n",
                 "\texport LAMMPS_BIN=`which lmp`\n",
                 "fi\n"])
    case Manual =>
      if cfg.lammpsPath.Some? then Ok(["\texport LAMMPS_BIN=" + cfg.lammpsPath.value + "\n"])
      else Ok(["export LAMMPS_BIN=`which lmp`\n"])
    case OtherProvisioning => Err("Using Unsupported Provisioning Mode")
  }

  /** The command line that runs one LAMMPS input script. */
  function LaunchLine(script: string): string
  {
    "${LAUNCHER_BIN} ${JOB_DISTR_ARGS} ${LAMMPS_BIN} < " + script + " \n"
  }

  function LaunchLines(scripts: seq<string>): (ls: seq<string>)
    ensures |ls| == |scripts|
    ensures forall k :: 0 <= k < |scripts| ==> ls[k] == LaunchLine(scripts[k])
  {
    if scripts == [] then [] else [LaunchLine(scripts[0])] + LaunchLines(scripts[1..])
  }

  /** Lines that enter the run directory and load its environment. */
  function Prologue(outPath: string): seq<string>
  {
    ["cd " + outPath + "\n", "source ./jobEnv.sh\n"]
  }

  /** Lines that clean up and hand the outputs to the ingestion script. */
  function Epilogue(resultScript: string, ingest: string): seq<string>
  {
    ["rm ./profile.*.dat\n", "`which python3` " + resultScript + ingest + "\n", "\n"]
  }

  lemma SegmentOf(a: seq<string>, m: seq<string>, b: seq<string>)
    ensures exists off :: 0 <= off <= |a + m + b| && m <= (a + m + b)[off..]
  {
    assert m <= (a + m + b)[|a|..];
  }

  /**
   * The job script of `buildAndLaunchFGSJob` around a scheduler header and
   * provisioning lines: change of directory, environment, provisioning, one
   * launch per LAMMPS script in order, clean up, then the ingestion command.
   */
  function JobScript(header: seq<string>, prov: seq<string>, outPath: string, scripts: seq<string>,
                     resultScript: string, ingest: string): (lines: seq<string>)
    ensures header <= lines
    ensures exists off :: 0 <= off <= |lines| && LaunchLines(scripts) <= lines[off..]
  {
    var front := header + Prologue(outPath) + prov;
    SegmentOf(front, LaunchLines(scripts), Epilogue(resultScript, ingest));
    front + LaunchLines(scripts) + Epilogue(resultScript, ingest)
  }

  /** Arguments of the result-ingestion command. */
  datatype IngestArgs = IngestArgs(tag: string, rank: int, reqid: int, dbPath: string, modeCode: int,
                                   solverCode: int, dbMode: int, user: Option<string>, password: Option<string>)

  /** The flags written unconditionally, as words. */
  function IngestFlags(a: IngestArgs): seq<string>
  {
    ["-t", a.tag, "-r", IntToString(a.rank), "-i", IntToString(a.reqid), "-d", a.dbPath,
     "-m", IntToString(a.modeCode), "-c", IntToString(a.solverCode), "-b", IntToString(a.dbMode)]
  }

  /** The optional credentials as words. */
  function CredentialFlags(a: IngestArgs): seq<string>
  {
    (if a.user.Some? then ["-u", a.user.value] else [])
    + (if a.password.Some? then ["-p", a.password.value] else [])
  }

  /** The argument string as the job builder writes it: credentials appended as `"- u "`/`"- p "`. */
  function IngestArgsAsWritten(a: IngestArgs): string
  {
    SpaceJoin(IngestFlags(a))
    + (if a.user.Some? then "- u " + a.user.value else "")
    + (if a.password.Some? then "- p " + a.password.value else "")
  }

  /** The argument string with the credential flags as separate `-u`/`-p` words. */
  function IngestArgsCorrected(a: IngestArgs): string
  {
    SpaceJoin(IngestFlags(a) + CredentialFlags(a))
  }

  /** Every value that goes on the command line is a single shell word. */
  predicate IngestWords(a: IngestArgs)
  {
    IsWord(a.tag) && IsWord(a.dbPath)
    && (a.user.Some? ==> IsWord(a.user.value))
    && (a.password.Some? ==> IsWord(a.password.value))
  }

  lemma IntWord(i: int)
    ensures IsWord(IntToString(i))
  {
    IntToStringHasNo(i, ' ');
  }

  lemma IngestFlagsWords(a: IngestArgs)
    requires IngestWords(a)
    ensures forall j :: 0 <= j < |IngestFlags(a)| ==> IsWord(IngestFlags(a)[j])
  {
    IntWord(a.rank);
    IntWord(a.reqid);
    IntWord(a.modeCode);
    IntWord(a.solverCode);
    IntWord(a.dbMode);
  }

  /** The corrected command line splits into exactly the intended flag/value words. */
  lemma IngestArgsCorrectedWords(a: IngestArgs)
    requires IngestWords(a)
    ensures Words(IngestArgsCorrected(a)) == IngestFlags(a) + CredentialFlags(a)
  {
    IngestFlagsWords(a);
    var ws := IngestFlags(a) + CredentialFlags(a);
    assert forall j :: 0 <= j < |ws| ==> IsWord(ws[j]);
    WordsSpaceJoin(ws);
  }

  /**
   * As written, a user name glues a dash onto the database mode and leaves
   * a lone `u` word: the `-u` flag never reaches the ingestion script.
   */
  lemma IngestArgsAsWrittenWords(a: IngestArgs)
    requires IngestWords(a) && a.user.Some? && a.password.None?
    ensures Words(IngestArgsAsWritten(a))
            == IngestFlags(a)[..13] + [IntToString(a.dbMode) + "-", "u", a.user.value]
    ensures Words(IngestArgsAsWritten(a)) != Words(IngestArgsCorrected(a))
  {
    var flags := IngestFlags(a);
    var mode := IntToString(a.dbMode);
    var u := a.user.value;
    var ws := flags[..13] + [mode + "-", "u", u];
    IngestFlagsWords(a);
    IntWord(a.dbMode);
    assert flags == flags[..13] + [mode];
    SpaceJoinAppend(flags[..13], [mode]);
    SpaceJoinAppend(flags[..13], [mode + "-", "u", u]);
    assert SpaceJoin([mode]) == " " + mode;
    assert SpaceJoin([u]) == " " + u;
    assert SpaceJoin(["u", u]) == " " + "u" + SpaceJoin([u]);
    assert SpaceJoin([mode + "-", "u", u]) == " " + (mode + "-") + SpaceJoin(["u", u]);
    assert "- u " + u == "-" + " " + "u" + " " + u;
    assert IngestArgsAsWritten(a) == SpaceJoin(ws);
    assert forall j :: 0 <= j < |ws| ==> IsWord(ws[j]);
    WordsSpaceJoin(ws);
    IngestArgsCorrectedWords(a);
    assert ws[13] != (flags + CredentialFlags(a))[13];
  }

  /** `tag_rank_reqid`: the per-request run directory. */
  function JobDirName(tag: string, rank: int, reqid: int): string
  {
    tag + "_" + IntToString(rank) + "_" + IntToString(reqid)
  }

  lemma SplitAtUnderscore(a: string, b: string, c: string, d: string)
    requires '_' !in a && '_' !in c
    requires a + "_" + b == c + "_" + d
    ensures a == c && b == d
  {
    var s := a + "_" + b;
    assert s == a + ("_" + b) && s == c + ("_" + d);
    FirstOfAfter(a, '_', "_" + b);
    FirstOfAfter(c, '_', "_" + d);
    assert s[..|a|] == a && s[..|c|] == c;
    assert s[|a| + 1..] == b && s[|c| + 1..] == d;
  }

  /** For one tag, distinct (rank, request) pairs get distinct directories. */
  lemma JobDirNameInjective(tag: string, r1: int, q1: int, r2: int, q2: int)
    requires JobDirName(tag, r1, q1) == JobDirName(tag, r2, q2)
    ensures r1 == r2 && q1 == q2
  {
    var p := tag + "_";
    var a1, a2 := IntToString(r1), IntToString(r2);
    var b1, b2 := IntToString(q1), IntToString(q2);
    assert JobDirName(tag, r1, q1) == p + (a1 + "_" + b1);
    assert JobDirName(tag, r2, q2) == p + (a2 + "_" + b2);
    assert (p + (a1 + "_" + b1))[|p|..] == a1 + "_" + b1;
    assert (p + (a2 + "_" + b2))[|p|..] == a2 + "_" + b2;
    IntToStringHasNo(r1, '_');
    IntToStringHasNo(r2, '_');
    SplitAtUnderscore(a1, b1, a2, b2);
    IntToStringInjective(r1, r2);
    IntToStringInjective(q1, q2);
  }

  /** Path of the job script inside its directory. */
  function ScriptPath(cwd: string, dir: string): string
  {
    cwd + "/" + dir + "/" + dir + ".sh"
  }

  /** The parts of the file system and scheduler the job builder touches. */
  datatype JobFs = JobFs(dirs: set<string>, scripts: map<string, seq<string>>, launched: seq<string>)

  /**
   * `buildAndLaunchFGSJob`: unless the request's directory already exists,
   * create it, write the job script and submit it once. `scripts` are the
   * LAMMPS inputs written for the request (or the error that writing them
   * raised).
   */
  function BuildAndLaunch(fs: JobFs, cfg: JobConfig, solver: SolverCode, cwd: string,
                          rank: int, reqid: int, scripts: Result<seq<string>>,
                          resultScript: string, ingest: IngestArgs): (r: Result<JobFs>)
    ensures solver == LbmZeroD ==> r.Err?
    ensures r.Ok? ==> fs.dirs <= r.value.dirs && JobDirName(ingest.tag, rank, reqid) in r.value.dirs
    ensures solver != LbmZeroD && JobDirName(ingest.tag, rank, reqid) in fs.dirs ==> r == Ok(fs)
    ensures r.Ok? && JobDirName(ingest.tag, rank, reqid) !in fs.dirs ==>
              r.value.launched == fs.launched + [ScriptPath(cwd, JobDirName(ingest.tag, rank, reqid))]
  {
    if solver == LbmZeroD then Err("Using Unsupported Solver Code")
    else
      var dir := JobDirName(ingest.tag, rank, reqid);
      if dir in fs.dirs then Ok(fs)
      else if scripts.Err? then Err(scripts.msg)
      else
        var path := ScriptPath(cwd, dir);
        var header := JobHeader(cfg, dir);
        var prov := ProvisioningLines(cfg);
        if header.Err? then Err(header.msg)
        else if prov.Err? then Err(prov.msg)
        else
          var body := JobScript(header.value, prov.value, cwd + "/" + dir, scripts.value,
                                resultScript, IngestArgsCorrected(ingest));
          Ok(JobFs(fs.dirs + {dir}, fs.scripts[path := body], fs.launched + [path]))
  }

  /** Building the same request twice submits it once. */
  lemma BuildAndLaunchIdempotent(fs: JobFs, cfg: JobConfig, solver: SolverCode, cwd: string,
                                 rank: int, reqid: int, scripts: Result<seq<string>>,
                                 resultScript: string, ingest: IngestArgs)
    requires BuildAndLaunch(fs, cfg, solver, cwd, rank, reqid, scripts, resultScript, ingest).Ok?
    ensures var once := BuildAndLaunch(fs, cfg, solver, cwd, rank, reqid, scripts, resultScript, ingest).value;
            BuildAndLaunch(once, cfg, solver, cwd, rank, reqid, scripts, resultScript, ingest) == Ok(once)
  {
  }
}
