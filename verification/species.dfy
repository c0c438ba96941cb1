// ICF species bookkeeping: the zero / trace / major split of a density
// vector, the names of the LAMMPS scripts written for it, the shape of the
// analytic two-species solution, and the Darken mutual-diffusion table.
// The plasma formulas themselves are parameters.

module Species {
  import opened Fallible
  import opened Text
  import opened GlueTypes

  function Sum(s: seq<real>): real
  {
    if s == [] then 0.0 else Sum(s[..|s| - 1]) + s[|s| - 1]
  }

  /**
   * numpy's `d / total < eps` for a non-zero `d`: a zero total gives an
   * infinity of the sign of `d`, which is below `eps` only when negative.
   */
  predicate BelowFraction(d: real, total: real, eps: real)
  {
    if total == 0.0 then d < 0.0 else d / total < eps
  }

  datatype Class = Zero | Trace | Major

  /** How species `i` is treated: absent, a trace, or part of the mixture. */
  function ClassOf(d: seq<real>, i: nat, eps: real): Class
    requires i < |d|
  {
    if d[i] == 0.0 then Zero
    else if BelowFraction(d[i], Sum(d), eps) then Trace
    else Major
  }

  datatype Partition = Partition(zeros: seq<nat>, traces: seq<nat>, majors: seq<nat>)

  predicate Ascending(s: seq<nat>)
  {
    forall a, b :: 0 <= a < b < |s| ==> s[a] < s[b]
  }

  /** Members of one class among the first `n` species. */
  predicate Lists(d: seq<real>, eps: real, n: nat, s: seq<nat>, c: Class)
    requires n <= |d|
  {
    Ascending(s)
    && (forall k :: 0 <= k < |s| ==> s[k] < n)
    && (forall x: nat :: x < n ==> (x in s <==> ClassOf(d, x, eps) == c))
  }

  /** Visiting species `n - 1` appends it to the list of its own class only. */
  lemma ListsExtend(d: seq<real>, eps: real, n: nat, s: seq<nat>, c: Class)
    requires 0 < n <= |d|
    requires Lists(d, eps, n - 1, s, c)
    ensures ClassOf(d, n - 1, eps) == c ==> Lists(d, eps, n, s + [n - 1], c)
    ensures ClassOf(d, n - 1, eps) != c ==> Lists(d, eps, n, s, c)
  {
    assert n - 1 !in s;
  }

  /** The three lists after the loop of `check_zeros_trace_elements` has visited `n` species. */
  function ClassifyPrefix(d: seq<real>, eps: real, n: nat): (p: Partition)
    requires n <= |d|
    ensures Lists(d, eps, n, p.zeros, Zero)
    ensures Lists(d, eps, n, p.traces, Trace)
    ensures Lists(d, eps, n, p.majors, Major)
  {
    if n == 0 then Partition([], [], [])
    else
      var p := ClassifyPrefix(d, eps, n - 1);
      var i := n - 1;
      ListsExtend(d, eps, n, p.zeros, Zero);
      ListsExtend(d, eps, n, p.traces, Trace);
      ListsExtend(d, eps, n, p.majors, Major);
      match ClassOf(d, i, eps)
      case Zero => p.(zeros := p.zeros + [i])
      case Trace => p.(traces := p.traces + [i])
      case Major => p.(majors := p.majors + [i])
  }

  function Classify(d: seq<real>, eps: real): Partition
  {
    ClassifyPrefix(d, eps, |d|)
  }

  /** The three lists are disjoint, ascending, and together hold every species once. */
  lemma ClassifyIsPartition(d: seq<real>, eps: real, i: nat)
    requires i < |d|
    ensures var p := Classify(d, eps);
            (i in p.zeros || i in p.traces || i in p.majors)
            && !(i in p.zeros && i in p.traces) && !(i in p.zeros && i in p.majors)
            && !(i in p.traces && i in p.majors)
    ensures Ascending(Classify(d, eps).zeros) && Ascending(Classify(d, eps).traces)
            && Ascending(Classify(d, eps).majors)
  {
  }

  /** A species is listed as zero exactly when its density is 0.0. */
  lemma ClassifyZeros(d: seq<real>, eps: real, i: nat)
    requires i < |d|
    ensures i in Classify(d, eps).zeros <==> d[i] == 0.0
  {
  }

  /** `single_<s><s>`: label of a one-species run. */
  function SingleLabel(s: nat): string
  {
    "single_" + IntToString(s) + IntToString(s)
  }

  /** `mixture_<i><j>`: label of a two-species run. */
  function MixtureLabel(i: nat, j: nat): string
  {
    "mixture_" + IntToString(i) + IntToString(j)
  }

  /** File name `write_LammpsScript` returns for a label. */
  function ScriptName(tag: string): string
  {
    "lammpsScript_" + tag
  }

  /**
   * The label `b` the mixture script is written with. Three or four major
   * species reach `b.append` on a string (or on an unset name) and fail; no
   * major species leaves `b` as the last trace label, or unset.
   */
  function MixtureChoice(traces: seq<nat>, majors: seq<nat>): (r: Result<string>)
    ensures r.Ok? <==> |majors| == 1 || |majors| == 2 || (|majors| !in {3, 4} && traces != [])
    ensures |majors| == 1 ==> r == Ok(SingleLabel(majors[0]))
    ensures |majors| == 2 ==> r == Ok(MixtureLabel(majors[0], majors[1]))
  {
    var n := |majors|;
    if n == 1 then Ok(SingleLabel(majors[0]))
    else if n == 2 then Ok(MixtureLabel(majors[0], majors[1]))
    else if n == 3 || n == 4 then
      Err(if traces == [] then "local variable 'b' referenced before assignment"
          else "'str' object has no attribute 'append'")
    else if traces == [] then Err("local variable 'b' referenced before assignment")
    else Ok(SingleLabel(traces[|traces| - 1]))
  }

  function TraceScripts(traces: seq<nat>): (names: seq<string>)
    ensures |names| == |traces|
    ensures forall k :: 0 <= k < |traces| ==> names[k] == ScriptName(SingleLabel(traces[k]))
  {
    if traces == [] then [] else [ScriptName(SingleLabel(traces[0]))] + TraceScripts(traces[1..])
  }

  /** Every listed species has an entry in a mass array of `massCount` entries. */
  predicate Weighed(species: seq<nat>, massCount: nat)
  {
    forall k :: 0 <= k < |species| ==> species[k] < massCount
  }

  /** numpy's error for `masses[s]` past the end of the mass array. */
  const MassIndexError: string := "index is out of bounds for axis 0"

  /**
   * `check_zeros_trace_elements` with a mass array of `massCount` entries:
   * the zero-density indices and the LAMMPS scripts to run, one per trace
   * species in order and the mixture last. A trace or mixture species
   * without a mass fails its indexing; an empty mixture reaches the writer
   * with no densities and fails dividing by their zero sum.
   */
  function LammpsScripts(d: seq<real>, eps: real, massCount: nat): (r: Result<(seq<nat>, seq<string>)>)
    ensures r.Ok? ==> r.value.0 == Classify(d, eps).zeros
    ensures r.Ok? ==> |r.value.1| == |Classify(d, eps).traces| + 1
    ensures r.Ok? ==> forall k :: 0 <= k < |Classify(d, eps).traces| ==>
                        r.value.1[k] == ScriptName(SingleLabel(Classify(d, eps).traces[k]))
  {
    var p := Classify(d, eps);
    if !Weighed(p.traces, massCount) then Err(MassIndexError)
    else
      var choice := MixtureChoice(p.traces, p.majors);
      if choice.Err? then Err(choice.msg)
      else if !Weighed(p.majors, massCount) then Err(MassIndexError)
      else if p.majors == [] then Err("float division by zero")
      else Ok((p.zeros, TraceScripts(p.traces) + [ScriptName(choice.value)]))
  }

  /**
   * The script set exists exactly when the mixture is non-empty and has a
   * label, and every trace and mixture species has a mass; it ends with the
   * mixture's script.
   */
  lemma LammpsScriptsMixture(d: seq<real>, eps: real, massCount: nat)
    ensures var p := Classify(d, eps);
            LammpsScripts(d, eps, massCount).Ok? <==>
              p.majors != [] && MixtureChoice(p.traces, p.majors).Ok?
              && Weighed(p.traces, massCount) && Weighed(p.majors, massCount)
    ensures var p := Classify(d, eps);
            LammpsScripts(d, eps, massCount).Ok? ==>
              LammpsScripts(d, eps, massCount).value.1[|p.traces|] == ScriptName(MixtureChoice(p.traces, p.majors).value)
  {
  }

  /** For the four ICF species the script set exists exactly for one or two major species, all with masses. */
  lemma LammpsScriptsFourSpecies(d: Vec4, eps: real, massCount: nat)
    ensures var p := Classify(d, eps);
            LammpsScripts(d, eps, massCount).Ok? <==>
              (|p.majors| == 1 || |p.majors| == 2) && Weighed(p.traces, massCount) && Weighed(p.majors, massCount)
  {
    var p := Classify(d, eps);
    if |p.majors| >= 3 {
      ThreeMajorsFail(d, eps, massCount);
    }
  }

  /** Without a major species the mixture writer divides by zero, even when traces exist. */
  lemma NoMajorFails(d: seq<real>, eps: real, massCount: nat)
    requires Classify(d, eps).majors == []
    ensures LammpsScripts(d, eps, massCount).Err?
  {
  }

  /** A present species without a mass makes the script writer fail. */
  lemma UnweighedSpeciesFail(d: seq<real>, eps: real, massCount: nat)
    ensures (exists i :: massCount <= i < |d| && d[i] != 0.0) ==> LammpsScripts(d, eps, massCount).Err?
  {
    var p := Classify(d, eps);
    if i :| massCount <= i < |d| && d[i] != 0.0 {
      ClassifyIsPartition(d, eps, i);
      ClassifyZeros(d, eps, i);
      if i in p.traces {
        var k :| 0 <= k < |p.traces| && p.traces[k] == i;
      } else {
        var k :| 0 <= k < |p.majors| && p.majors[k] == i;
      }
    }
  }

  /** Three or more major species make the script writer fail. */
  lemma ThreeMajorsFail(d: Vec4, eps: real, massCount: nat)
    requires |Classify(d, eps).majors| >= 3
    ensures LammpsScripts(d, eps, massCount).Err?
  {
    var p := Classify(d, eps);
    assert forall k :: 0 <= k < |p.majors| ==> p.majors[k] < 4;
    assert |p.majors| <= 4 by {
      assert forall a, b :: 0 <= a < b < |p.majors| ==> p.majors[a] < p.majors[b];
      AscendingBelowLength(p.majors, 4);
    }
  }

  lemma {:induction false} AscendingBelowLength(s: seq<nat>, bound: nat)
    requires Ascending(s)
    requires forall k :: 0 <= k < |s| ==> s[k] < bound
    ensures |s| <= bound
    decreases |s|
  {
    if s != [] {
      var init := s[..|s| - 1];
      assert forall k :: 0 <= k < |init| ==> init[k] < s[|s| - 1];
      AscendingBelowLength(init, s[|s| - 1]);
    }
  }

  /** The plasma formulas used by the analytic solution, taken as given. */
  datatype Physics = Physics(
    thermal2: (real, real, real, real, real, real, real) -> real,
    viscosity2: (real, real, real, real, real, real, real) -> real,
    mutualDiffusion: (real, real, real, real, real, real, real) -> real,
    thermal1: (real, real, real, real) -> real,
    viscosity1: (real, real, real, real) -> real,
    selfDiffusion: (real, real, real, real) -> real)

  /** Masses of the two species the analytic solution knows. */
  const Mass0: real := 3.3210778e-24
  const Mass1: real := 6.633365399999999e-23

  /** Diffusion vector with `d11`, `d12`, `d22` at positions 0, 1 and 4. */
  function DiffusionVector(d11: real, d12: real, d22: real): (v: Vec10)
    ensures v[0] == d11 && v[1] == d12 && v[4] == d22
    ensures forall k :: 0 <= k < 10 && k != 0 && k != 1 && k != 4 ==> v[k] == 0.0
  {
    [d11, d12, 0.0, 0.0, d22, 0.0, 0.0, 0.0, 0.0, 0.0]
  }

  /**
   * `ICFAnalytical_solution`: (conductivity, viscosity, diffusion) from
   * species 0 and 1 only. With neither present the coefficients are never
   * assigned and the function fails.
   */
  function AnalyticSolution(ph: Physics, density: Vec4, charges: Vec4, t: real): (r: Result<(real, real, Vec10)>)
    ensures r.Err? <==> density[0] == 0.0 && density[1] == 0.0
    ensures r.Ok? ==> forall k :: 0 <= k < 10 && k != 0 && k != 1 && k != 4 ==> r.value.2[k] == 0.0
    ensures r.Ok? && density[1] == 0.0 ==> r.value.2[1] == 0.0 && r.value.2[4] == 0.0
    ensures r.Ok? && density[0] == 0.0 ==> r.value.2[0] == 0.0 && r.value.2[1] == 0.0
  {
    var n0, n1, z0, z1 := density[0], density[1], charges[0], charges[1];
    if n0 != 0.0 && n1 != 0.0 then
      Ok((ph.thermal2(n0, n1, Mass0, Mass1, z0, z1, t),
          ph.viscosity2(n0, n1, Mass0, Mass1, z0, z1, t),
          DiffusionVector(ph.mutualDiffusion(n0, n0, Mass0, Mass0, z0, z0, t),
                          ph.mutualDiffusion(n0, n1, Mass0, Mass1, z0, z1, t),
                          ph.mutualDiffusion(n1, n1, Mass1, Mass1, z1, z1, t))))
    else if n0 != 0.0 then
      Ok((ph.thermal1(n0, Mass0, z0, t), ph.viscosity1(n0, Mass0, z0, t),
          DiffusionVector(ph.selfDiffusion(n0, Mass0, z0, t), 0.0, 0.0)))
    else if n1 != 0.0 then
      Ok((ph.thermal1(n1, Mass1, z1, t), ph.viscosity1(n1, Mass1, z1, t),
          DiffusionVector(0.0, 0.0, ph.selfDiffusion(n1, Mass1, z1, t))))
    else Err("local variable 'D_11' referenced before assignment")
  }

  /** Species 2 and 3 never influence the analytic solution. */
  lemma AnalyticIgnoresOtherSpecies(ph: Physics, d1: Vec4, c1: Vec4, d2: Vec4, c2: Vec4, t: real)
    requires d1[0] == d2[0] && d1[1] == d2[1] && c1[0] == c2[0] && c1[1] == c2[1]
    ensures AnalyticSolution(ph, d1, c1, t) == AnalyticSolution(ph, d2, c2, t)
  {
  }

  /**
   * `write_output_coeff`: the diffusion table left on disk. A zero-density
   * species has its self-diffusion overwritten with 0; every off-diagonal
   * entry is the Darken combination c_i·d_jj + c_j·d_ii of concentrations
   * c and self-diffusions d. `lammps` holds the self-diffusions LAMMPS
   * reported. An all-zero density vector has no concentrations.
   */
  function SelfDiffusion(i: nat, zeros: seq<nat>, lammps: seq<real>): real
    requires i < |lammps|
  {
    if i in zeros then 0.0 else lammps[i]
  }

  /** Entry (i, j) of the table for concentrations `d[k] / total`. */
  function DarkenEntry(d: seq<real>, total: real, zeros: seq<nat>, lammps: seq<real>, i: nat, j: nat): real
    requires |lammps| == |d| && i < |d| && j < |d| && total != 0.0
  {
    if i == j then SelfDiffusion(i, zeros, lammps)
    else d[i] / total * SelfDiffusion(j, zeros, lammps) + d[j] / total * SelfDiffusion(i, zeros, lammps)
  }

  function DarkenTable(d: seq<real>, zeros: seq<nat>, lammps: seq<real>): (r: Result<map<(nat, nat), real>>)
    requires |lammps| == |d|
    ensures r.Err? <==> Sum(d) == 0.0
    ensures r.Ok? ==> forall i: nat, j: nat :: i < |d| && j < |d| <==> (i, j) in r.value
    ensures r.Ok? ==> forall i: nat, j: nat :: i < |d| && j < |d| ==>
                        r.value[(i, j)] == DarkenEntry(d, Sum(d), zeros, lammps, i, j)
  {
    var total := Sum(d);
    if total == 0.0 then Err("division by a zero total density")
    else Ok(map i: nat, j: nat | i < |d| && j < |d| :: (i, j) := DarkenEntry(d, total, zeros, lammps, i, j))
  }

  /** The diagonal holds the self-diffusions, zero for absent species. */
  lemma DarkenDiagonal(d: seq<real>, zeros: seq<nat>, lammps: seq<real>, i: nat)
    requires |lammps| == |d| && i < |d| && Sum(d) != 0.0
    ensures DarkenEntry(d, Sum(d), zeros, lammps, i, i) == (if i in zeros then 0.0 else lammps[i])
  {
  }

  /** The Darken mutual diffusion is symmetric. */
  lemma DarkenSymmetric(d: seq<real>, total: real, zeros: seq<nat>, lammps: seq<real>, i: nat, j: nat)
    requires |lammps| == |d| && i < |d| && j < |d| && total != 0.0
    ensures DarkenEntry(d, total, zeros, lammps, i, j) == DarkenEntry(d, total, zeros, lammps, j, i)
  {
  }

  /** An absent species (listed among the zeros) has no mutual diffusion with anyone. */
  lemma DarkenAbsentSpecies(d: seq<real>, total: real, zeros: seq<nat>, lammps: seq<real>, i: nat, j: nat)
    requires |lammps| == |d| && i < |d| && j < |d| && total != 0.0
    requires j in zeros && d[j] == 0.0
    ensures DarkenEntry(d, total, zeros, lammps, i, j) == 0.0
  {
  }
}
