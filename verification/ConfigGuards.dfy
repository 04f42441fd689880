/**
 The guards of the configuration cache are the exact line: runs that meet them are safe however many
 mutators there are, and a step that breaks one lets a job overwrite settings.
 */
module ConfigGuards {
  import opened Wrappers
  import opened ConfigCache
  import opened ConfigSteps
  import opened ConfigRuns

  // ---------------------------------------------------------------------------------------------
  // Guarded runs
  // ---------------------------------------------------------------------------------------------

  predicate GuardedRun(st: World, run: seq<Action>)
    requires CanRun(st, run)
    decreases |run|
  {
    run == [] || (GuardedRun(st, run[..|run| - 1]) && Guard(After(st, run[..|run| - 1]), run[|run| - 1]))
  }

  lemma {:induction false} GuardedRunsAgree(st: World, run: seq<Action>)
    requires Numbered(st.shell) && Agreed(st.shell) && CanRun(st, run) && GuardedRun(st, run)
    ensures Numbered(After(st, run).shell) && Agreed(After(st, run).shell)
    decreases |run|
  {
    if run != [] {
      hide Numbered, Agreed, Step, Guard;
      var before := run[..|run| - 1];
      GuardedRunsAgree(st, before);
      GuardIsExact(After(st, before), run[|run| - 1]);
    }
  }

  /** A run from an empty shell whose every step meets its guard ends in `st`. */
  ghost predicate ReachesGuarded(disk: Settings, preview: Config, run: seq<Action>, st: World) {
    && CanRun(Start(disk, preview), run)
    && GuardedRun(Start(disk, preview), run)
    && After(Start(disk, preview), run) == st
  }

  lemma GuardedIsAgreed(disk: Settings, preview: Config, run: seq<Action>, st: World)
    requires ReachesGuarded(disk, preview, run, st)
    ensures Agreed(st.shell)
  {
    hide Same;
    assert Numbered(Start(disk, preview).shell) && Agreed(Start(disk, preview).shell);
    GuardedRunsAgree(Start(disk, preview), run);
  }

  /** What a commit does to the caches: they get one configuration, with the choices each of them had. */
  ghost predicate ChoicesStay(before: Shell, after: Shell) {
    && after.cache.Some? && after.bare == after.cache
    && (before.cache.Some? || before.bare.Some?)
    && Holds(before.cache, after.cache.value.settings) && Holds(before.bare, after.cache.value.settings)
    && after == before.(cache := after.cache, bare := after.bare, jobs := after.jobs)
  }

  /** However many mutators there are: in a run whose steps meet their guards, a current commit changes
      no choice, only the palette and the spelling of scheme and mode. */
  lemma GuardedCommitsKeepChoices(disk: Settings, preview: Config, run: seq<Action>, st: World, j: nat)
    requires ReachesGuarded(disk, preview, run, st)
    requires Enabled(st, Commit(j)) && st.shell.jobs[j].gen == st.shell.gen
    ensures ChoicesStay(st.shell, Step(st, Commit(j)).shell)
  {
    hide ReachesGuarded, Same;
    GuardedIsAgreed(disk, preview, run, st);
    assert JobAgrees(st.shell, st.shell.jobs[j]);
  }

  /** A disciplined mutator meets every guard, so its runs are among these. */
  lemma {:induction false} DisciplinedRunsAreGuarded(st: World, run: seq<Action>)
    requires Sound(st) && CanRun(st, run) && DisciplinedRun(st, run)
    ensures GuardedRun(st, run)
    decreases |run|
  {
    if run != [] {
      hide Sound, Disciplined, Guard, Step;
      var before := run[..|run| - 1];
      DisciplinedRunsAreGuarded(st, before);
      DisciplinedRunsStaySound(st, before);
      DisciplineMeetsGuard(After(st, before), run[|run| - 1]);
    }
  }

  lemma DisciplinedIsGuarded(disk: Settings, preview: Config, run: seq<Action>, st: World)
    requires Reaches(disk, preview, run, st)
    ensures ReachesGuarded(disk, preview, run, st)
  {
    hide After, CanRun;
    assert Sound(Start(disk, preview));
    DisciplinedRunsAreGuarded(Start(disk, preview), run);
  }

  // ---------------------------------------------------------------------------------------------
  // Without agreement a job can overwrite settings
  // ---------------------------------------------------------------------------------------------

  /** Steps nobody would call a fault: the files change, a job is asked for and runs. */
  predicate Ordinary(run: seq<Action>) {
    forall k :: 0 <= k < |run| ==> run[k].EditDisk? || run[k].Trigger? || run[k].Generate? || run[k].Check?
  }

  lemma Extend(st: World, run: seq<Action>, a: Action)
    requires CanRun(st, run) && Enabled(After(st, run), a)
    ensures CanRun(st, run + [a]) && After(st, run + [a]) == Step(After(st, run), a)
  {
    hide Enabled, Step;
    assert (run + [a])[..|run|] == run;
  }

  lemma NoStepYet(st: World)
    ensures CanRun(st, []) && After(st, []) == st
  {
  }

  /** A current job that differs from what a reader gets, whatever stage it is at. */
  predicate Dangerous(s: Shell, j: nat) {
    j < |s.jobs| && Current(s, s.jobs[j]) && !Same(Shown(s), s.jobs[j].cfg.settings)
  }

  lemma GenerateStaysDangerous(st: World, j: nat, p: Palette)
    requires Dangerous(st.shell, j) && Enabled(st, Generate(j, p, false))
    ensures var next := Step(st, Generate(j, p, false)); Dangerous(next.shell, j) && JobIs(next.shell, j, Made)
  {
    hide Same;
  }

  lemma CheckStaysDangerous(st: World, j: nat)
    requires Dangerous(st.shell, j) && Enabled(st, Check(j))
    ensures var next := Step(st, Check(j)); Dangerous(next.shell, j) && JobIs(next.shell, j, Passed)
  {
    hide Same;
  }

  lemma PassedOverwrites(st: World, j: nat)
    requires Dangerous(st.shell, j) && JobIs(st.shell, j, Passed)
    ensures CommitOverwritesSettings(st, j)
  {
    hide Same;
  }

  /** The job runs to its commit. */
  lemma RunTheJob(st: World, before: seq<Action>, j: nat, p: Palette) returns (run: seq<Action>)
    requires CanRun(st, before) && Ordinary(before) && Dangerous(After(st, before).shell, j)
    ensures CanRun(st, run) && Ordinary(run) && CommitOverwritesSettings(After(st, run), j)
  {
    hide Step, After, CanRun, Same, CommitOverwritesSettings;
    run := before;
    if After(st, run).shell.jobs[j].stage.Queued? {
      Extend(st, run, Generate(j, p, false));
      GenerateStaysDangerous(After(st, run), j, p);
      run := run + [Generate(j, p, false)];
    }
    if After(st, run).shell.jobs[j].stage.Made? {
      Extend(st, run, Check(j));
      CheckStaysDangerous(After(st, run), j);
      run := run + [Check(j)];
    }
    PassedOverwrites(After(st, run), j);
  }

  function Otherwise(settings: Settings): Settings {
    settings.(rest := settings.rest + "x")
  }

  lemma OtherwiseDiffers(settings: Settings)
    ensures !Same(Normalized(Otherwise(settings)), settings)
  {
    hide Normal;
  }

  lemma TriggerIsDangerous(st: World)
    requires st.shell.cache.Some? && st.shell.bare.Some?
    requires !Same(st.shell.cache.value.settings, st.shell.bare.value.settings)
    ensures Dangerous(Step(st, Trigger).shell, |st.shell.jobs|)
  {
    hide Same;
  }

  /** With no cache at all the files are what a reader gets, and may change. */
  lemma EditIsDangerous(st: World, j: nat)
    requires j < |st.shell.jobs| && Current(st.shell, st.shell.jobs[j]) && Live(st.shell).None?
    ensures Dangerous(Step(st, EditDisk(Otherwise(st.shell.jobs[j].cfg.settings))).shell, j)
  {
    hide Same, Normalized, Otherwise;
    OtherwiseDiffers(st.shell.jobs[j].cfg.settings);
  }

  /** From any shell without agreement some ordinary continuation ends in a commit that overwrites
      settings. */
  lemma DisagreementOverwrites(st: World, p: Palette) returns (run: seq<Action>, j: nat)
    requires !Agreed(st.shell)
    ensures CanRun(st, run) && Ordinary(run) && CommitOverwritesSettings(After(st, run), j)
  {
    hide Step, After, CanRun, Same, Dangerous, CommitOverwritesSettings, Otherwise;
    var s := st.shell;
    NoStepYet(st);
    if !CachesAgree(s) {
      j := |s.jobs|;
      Extend(st, [], Trigger);
      TriggerIsDangerous(st);
      run := RunTheJob(st, [] + [Trigger], j, p);
    } else {
      j :| 0 <= j < |s.jobs| && !JobAgrees(s, s.jobs[j]);
      if Live(s).Some? {
        DisagreesWithReaders(s, j);
        run := RunTheJob(st, [], j, p);
      } else {
        var edit := EditDisk(Otherwise(s.jobs[j].cfg.settings));
        Extend(st, [], edit);
        EditIsDangerous(st, j);
        run := RunTheJob(st, [] + [edit], j, p);
      }
    }
  }

  /** Where the caches agree, a current job that disagrees with one of them disagrees with what a reader
      gets. */
  lemma DisagreesWithReaders(s: Shell, j: nat)
    requires CachesAgree(s) && Live(s).Some? && j < |s.jobs| && !JobAgrees(s, s.jobs[j])
    ensures Dangerous(s, j)
  {
    hide Normalized;
  }

  /** A step that does not find its guard lets a job overwrite settings. */
  lemma BrokenGuardOverwrites(st: World, a: Action, p: Palette) returns (run: seq<Action>, j: nat)
    requires Enabled(st, a) && Numbered(st.shell) && Agreed(st.shell) && !Guard(st, a)
    ensures CanRun(Step(st, a), run) && Ordinary(run)
    ensures CommitOverwritesSettings(After(Step(st, a), run), j)
  {
    hide Guard, Agreed, Numbered, Step, After, CanRun, CommitOverwritesSettings;
    GuardIsExact(st, a);
    run, j := DisagreementOverwrites(Step(st, a), p);
  }
}
