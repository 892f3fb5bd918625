/** What a run of the storage autopilot does to recovery scratch, told as one history of steps. */
module ScratchRuns {
  import opened Growth
  import opened Options
  import opened Pilot
  import VolumeRuns
  import Scratch

  /** What happens in the scratch root up to a pass's sweep, and then the turns of the sweep. */
  function StepsOf(cfg: Config, i: Input, world: seq<Scratch.Step>): seq<Scratch.Step> {
    world + if i.mountFound && !cfg.dryRun then Scratch.Sweeps(i.looks, i.live) else []
  }

  function AllSteps(cfg: Config, inputs: seq<Input>, worlds: seq<seq<Scratch.Step>>): seq<Scratch.Step>
    requires |inputs| == |worlds|
  {
    if inputs == [] then []
    else
      var n := |inputs| - 1;
      AllSteps(cfg, inputs[..n], worlds[..n]) + StepsOf(cfg, inputs[n], worlds[n])
  }

  /** Every pass finds what the pass before it left, after what restores and leases have done since. */
  ghost predicate Finds(cfg: Config, s: State, inputs: seq<Input>, worlds: seq<seq<Scratch.Step>>)
    requires cfg.target != 0.0 && |inputs| == |worlds|
  {
    forall k :: 0 <= k < |inputs| ==> FindsAt(cfg, s, inputs, worlds, k)
  }

  ghost predicate FindsAt(cfg: Config, s: State, inputs: seq<Input>, worlds: seq<seq<Scratch.Step>>, k: nat)
    requires cfg.target != 0.0 && |inputs| == |worlds| && k < |inputs|
  {
    inputs[k].scratch == Scratch.After(Run(cfg, s, inputs[..k]).scratch, worlds[k])
  }

  lemma PassIsSteps(cfg: Config, s: State, i: Input, world: seq<Scratch.Step>)
    requires cfg.target != 0.0 && i.scratch == Scratch.After(s.scratch, world)
    ensures Pass(cfg, s, i).scratch == Scratch.After(s.scratch, StepsOf(cfg, i, world))
  {
    VolumeRuns.PassScratch(cfg, s, i);
    if i.mountFound && !cfg.dryRun {
      Scratch.SweepIsSteps(i.scratch, i.looks, i.live);
      Scratch.AfterAppend(s.scratch, world, Scratch.Sweeps(i.looks, i.live));
    } else {
      assert world + [] == world;
      if cfg.dryRun {
        VolumeRuns.DrySweep(i.scratch, i.looks, i.live);
      }
    }
  }

  /** The scratch root after a run is what the run's steps, in their order, make of it. */
  lemma {:induction false} RunIsSteps(cfg: Config, s: State, inputs: seq<Input>, worlds: seq<seq<Scratch.Step>>)
    requires cfg.target != 0.0 && |inputs| == |worlds| && Finds(cfg, s, inputs, worlds)
    ensures Run(cfg, s, inputs).scratch == Scratch.After(s.scratch, AllSteps(cfg, inputs, worlds))
    decreases |inputs|
  {
    if inputs != [] {
      var n := |inputs| - 1;
      FindsBefore(cfg, s, inputs, worlds, n);
      RunIsSteps(cfg, s, inputs[..n], worlds[..n]);
      assert FindsAt(cfg, s, inputs, worlds, n);
      PassIsSteps(cfg, Run(cfg, s, inputs[..n]), inputs[n], worlds[n]);
      Scratch.AfterAppend(s.scratch, AllSteps(cfg, inputs[..n], worlds[..n]), StepsOf(cfg, inputs[n], worlds[n]));
    }
  }

  lemma FindsBefore(cfg: Config, s: State, inputs: seq<Input>, worlds: seq<seq<Scratch.Step>>, n: nat)
    requires cfg.target != 0.0 && |inputs| == |worlds| && n <= |inputs| && Finds(cfg, s, inputs, worlds)
    ensures Finds(cfg, s, inputs[..n], worlds[..n])
  {
    forall k | 0 <= k < n ensures FindsAt(cfg, s, inputs[..n], worlds[..n], k) {
      assert FindsAt(cfg, s, inputs, worlds, k);
      assert inputs[..n][..k] == inputs[..k];
    }
  }

  /** No run of the autopilot ever deletes a restore that keeps renewing its lease. */
  lemma RestoreOutlivesRun(cfg: Config, s: State, inputs: seq<Input>, worlds: seq<seq<Scratch.Step>>,
                           name: string, since: real)
    requires cfg.target != 0.0 && |inputs| == |worlds| && Finds(cfg, s, inputs, worlds)
    requires name in s.scratch && s.scratch[name].lease == Some(since)
    requires var steps := AllSteps(cfg, inputs, worlds);
             Scratch.Running(name, steps) && Scratch.Renewed(name, since, steps)
    ensures name in Run(cfg, s, inputs).scratch
  {
    RunIsSteps(cfg, s, inputs, worlds);
    Scratch.RenewedIsNeverDeleted(s.scratch, name, since, AllSteps(cfg, inputs, worlds));
  }

  /** Leases, containers and writes decide over whole runs. */
  lemma FateInRunExactly(cfg: Config, s: State, inputs: seq<Input>, worlds: seq<seq<Scratch.Step>>, r: string)
    requires cfg.target != 0.0 && |inputs| == |worlds| && Finds(cfg, s, inputs, worlds)
    requires "restore-" + r in s.scratch && s.scratch["restore-" + r].isDir
    requires var steps := AllSteps(cfg, inputs, worlds);
             && Scratch.Running("restore-" + r, steps)
             && forall x :: x in steps ==>
                  !(x.Create? && x.name == "restore-" + r) && (x.Sweep? ==> x.look.left.None?)
    ensures "restore-" + r in Run(cfg, s, inputs).scratch <==>
            Scratch.SparedAtSweeps(r, s.scratch["restore-" + r], AllSteps(cfg, inputs, worlds))
  {
    RunIsSteps(cfg, s, inputs, worlds);
    Scratch.FateExactly(s.scratch, r, AllSteps(cfg, inputs, worlds));
  }

  /** Whatever a run has lost was removed by its own restore or by a sweep when nothing spared it. */
  lemma RunDeletionsAreJustified(cfg: Config, s: State, inputs: seq<Input>, worlds: seq<seq<Scratch.Step>>,
                                 name: string) returns (i: nat)
    requires cfg.target != 0.0 && |inputs| == |worlds| && Finds(cfg, s, inputs, worlds)
    requires name in s.scratch && name !in Run(cfg, s, inputs).scratch
    ensures var steps := AllSteps(cfg, inputs, worlds);
            && i < |steps| && name in Scratch.After(s.scratch, steps[..i])
            && (steps[i] == Scratch.Leave(name, Scratch.TimeOf(steps[i])) ||
                (steps[i].Sweep? && steps[i].look.name == name
                 && Scratch.Forsaken(name, Scratch.After(s.scratch, steps[..i])[name],
                                     steps[i].live, steps[i].look.now)))
  {
    RunIsSteps(cfg, s, inputs, worlds);
    i := Scratch.DeletionsAreJustified(s.scratch, name, AllSteps(cfg, inputs, worlds));
  }
}
