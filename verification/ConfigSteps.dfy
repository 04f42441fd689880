/**
 The configuration cache under any interleaving of mutators and palette jobs: the steps, and exactly
 when a step keeps every current job in agreement with the caches.
 */
module ConfigSteps {
  import opened Wrappers
  import opened ConfigCache

  // ---------------------------------------------------------------------------------------------
  // Interleavings
  // ---------------------------------------------------------------------------------------------

  /** The shell, the writes whose bump has happened but not their locked half, and whether the
      files were edited since the caches were last replaced or filled from empty. */
  datatype World = World(shell: Shell, pending: seq<Write>, edited: bool)

  datatype Action =
    | Begin(w: Write)
    | Finish(i: nat, loaded: Palette)
    | Snap(loaded: Palette)
    | LoadBare(loaded: Palette)
    | LoadCache(loaded: Palette)
    | Trigger
    | Restore(colors: Colors)
    | ShowPreview(merged: Config)
    | ClearPreview
    | EditDisk(settings: Settings)
    | Generate(job: nat, made: Palette, respelled: bool)
    | Check(job: nat)
    | Commit(job: nat)
    | Adopt(job: nat)

  predicate JobIs(s: Shell, j: nat, stage: Stage) {
    j < |s.jobs| && s.jobs[j].stage == stage
  }

  predicate Empty(s: Shell) {
    s.cache.None? && s.bare.None?
  }

  predicate Enabled(st: World, a: Action) {
    match a
    case Finish(i, _) => i < |st.pending|
    case Generate(j, _, _) => JobIs(st.shell, j, Queued)
    case Check(j) => JobIs(st.shell, j, Made)
    case Commit(j) => JobIs(st.shell, j, Passed)
    case Adopt(j) => JobIs(st.shell, j, Superseded)
    case _ => true
  }

  function Staged(s: Shell, j: nat, stage: Stage): Shell
    requires j < |s.jobs|
  {
    s.(jobs := s.jobs[j := s.jobs[j].(stage := stage)])
  }

  function Step(st: World, a: Action): World
    requires Enabled(st, a)
  {
    var s := st.shell;
    match a
    case Begin(w) => st.(shell := Bumped(s), pending := st.pending + [w])
    case Finish(i, loaded) =>
      World(Written(s, st.pending[i], loaded), st.pending[..i] + st.pending[i + 1..], false)
    case Snap(loaded) => st.(shell := Snapped(s, loaded), edited := st.edited && !Empty(s))
    case LoadBare(loaded) => st.(shell := BareLoaded(s, loaded), edited := st.edited && !Empty(s))
    case LoadCache(loaded) => st.(shell := CacheLoaded(s, loaded), edited := st.edited && !Empty(s))
    case Trigger => st.(shell := Triggered(s))
    case Restore(colors) => st.(shell := Restored(s, colors))
    case ShowPreview(merged) => st.(shell := s.(preview := merged, previewing := true))
    case ClearPreview => st.(shell := PreviewCleared(s))
    case EditDisk(settings) => st.(shell := s.(disk := settings), edited := true)
    case Generate(j, made, respelled) =>
      st.(shell := s.(jobs := s.jobs[j := Job(s.jobs[j].gen, Generated(s.jobs[j].cfg, made, respelled), Made)]))
    case Check(j) => st.(shell := Staged(s, j, if s.jobs[j].gen == s.gen then Passed else Superseded))
    case Commit(j) => st.(shell := Staged(Committed(s, s.jobs[j].gen, s.jobs[j].cfg), j, Finished))
    case Adopt(j) => st.(shell := Staged(AdoptedInto(s, s.jobs[j].cfg), j, Finished))
  }

  predicate CanRun(st: World, run: seq<Action>)
    decreases |run|, 0
  {
    run == [] || (CanRun(st, run[..|run| - 1]) && Enabled(After(st, run[..|run| - 1]), run[|run| - 1]))
  }

  function After(st: World, run: seq<Action>): World
    requires CanRun(st, run)
    decreases |run|, 1
  {
    if run == [] then st else Step(After(st, run[..|run| - 1]), run[|run| - 1])
  }

  // ---------------------------------------------------------------------------------------------
  // Agreement: a current job was built from the settings every present cache holds, up to spelling
  // ---------------------------------------------------------------------------------------------

  predicate Holds(c: Option<Config>, settings: Settings) {
    c.Some? ==> Same(c.value.settings, settings)
  }

  predicate Current(s: Shell, job: Job) {
    job.gen == s.gen && (job.stage.Queued? || job.stage.Made? || job.stage.Passed?)
  }

  predicate JobAgrees(s: Shell, job: Job) {
    Current(s, job) ==>
      && (s.cache.Some? || s.bare.Some?)
      && Holds(s.cache, job.cfg.settings)
      && Holds(s.bare, job.cfg.settings)
  }

  predicate CachesAgree(s: Shell) {
    s.cache.Some? && s.bare.Some? ==> Same(s.cache.value.settings, s.bare.value.settings)
  }

  predicate Agreed(s: Shell) {
    CachesAgree(s) && forall j :: 0 <= j < |s.jobs| ==> JobAgrees(s, s.jobs[j])
  }

  /** No job was numbered after the counter. */
  predicate Numbered(s: Shell) {
    forall j :: 0 <= j < |s.jobs| ==> s.jobs[j].gen <= s.gen
  }

  predicate EveryCurrentJobHas(s: Shell, settings: Settings) {
    forall j :: 0 <= j < |s.jobs| && Current(s, s.jobs[j]) ==> Same(s.jobs[j].cfg.settings, settings)
  }

  predicate NoCurrentJob(s: Shell) {
    forall j :: 0 <= j < |s.jobs| ==> !Current(s, s.jobs[j])
  }

  /** What a step must find for agreement to outlive it: each clause is the step's own danger. */
  predicate Guard(st: World, a: Action)
    requires Enabled(st, a)
  {
    var s := st.shell;
    match a
    case Finish(i, _) =>
      (match st.pending[i]
       case Reset => NoCurrentJob(s)
       case Light => EveryCurrentJobHas(s, s.disk)
       case Apply(sc) => EveryCurrentJobHas(s, sc.settings)
       case Reload(_) => EveryCurrentJobHas(s, s.disk))
    case LoadBare(_) => s.bare.None? ==> Holds(s.cache, s.disk)
    case LoadCache(_) => s.cache.None? ==> Holds(s.bare, s.disk)
    case ClearPreview =>
      s.previewing && s.cache.Some? ==>
        var merged := DragMerged(s.cache.value, s.preview).settings;
        Holds(s.bare, merged) && EveryCurrentJobHas(s, merged)
    case _ => true
  }

  lemma WriteGuard(st: World, i: nat, loaded: Palette)
    requires i < |st.pending| && Numbered(st.shell) && Agreed(st.shell)
    ensures var t := Written(st.shell, st.pending[i], loaded);
            Numbered(t) && (Agreed(t) <==> Guard(st, Finish(i, loaded)))
  {
    hide Normalized;
    NormalizedTwice(st.shell.disk);
    var s, t := st.shell, Written(st.shell, st.pending[i], loaded);
    forall j | 0 <= j < |s.jobs|
      ensures t.jobs[j] == s.jobs[j] && Current(t, t.jobs[j]) == Current(s, s.jobs[j])
    {
    }
    if st.pending[i].Reset? && Agreed(t) {
      forall j | 0 <= j < |s.jobs|
        ensures !Current(s, s.jobs[j])
      {
        assert JobAgrees(t, t.jobs[j]);
      }
    }
    if !st.pending[i].Reset? && Agreed(t) {
      forall j | 0 <= j < |s.jobs| && Current(s, s.jobs[j])
        ensures Holds(t.cache, s.jobs[j].cfg.settings)
      {
        assert JobAgrees(t, t.jobs[j]);
      }
    }
  }

  /** A bump and a job built from a configuration the present caches agree with. */
  lemma EnqueueKeeps(s: Shell, cfg: Config)
    requires Numbered(s) && CachesAgree(s) && (s.cache.Some? || s.bare.Some?)
    requires Holds(s.cache, cfg.settings) && Holds(s.bare, cfg.settings)
    ensures Numbered(Enqueued(Bumped(s), cfg)) && Agreed(Enqueued(Bumped(s), cfg))
  {
    hide Normalized;
  }

  lemma SnapKeeps(s: Shell, loaded: Palette)
    requires Numbered(s) && Agreed(s)
    ensures Numbered(Snapped(s, loaded)) && Agreed(Snapped(s, loaded))
  {
    hide Normalized;
    if s.cache.None? {
      var cfg := if s.bare.Some? then s.bare.value else FromFiles(s.disk, loaded);
      var t := s.(cache := Some(cfg), bare := Some(cfg));
      EnqueueKeeps(t, cfg);
      if s.bare.Some? {
        SamePlace(s, t);
      }
    }
  }

  /** Agreement looks only at generations, stages and settings. */
  lemma SamePlace(s: Shell, t: Shell)
    requires Agreed(s) && CachesAgree(t) && t.gen == s.gen && t.jobs == s.jobs
    requires s.cache.Some? || s.bare.Some? ==> t.cache.Some? || t.bare.Some?
    requires forall settings :: Holds(s.cache, settings) && Holds(s.bare, settings) && (s.cache.Some? || s.bare.Some?)
                                ==> Holds(t.cache, settings) && Holds(t.bare, settings)
    ensures Agreed(t)
  {
    hide Normalized;
    forall j | 0 <= j < |t.jobs|
      ensures JobAgrees(t, t.jobs[j])
    {
      assert JobAgrees(s, s.jobs[j]);
    }
  }

  /** Whatever the interleaving and however many mutators there are, a step keeps agreement exactly
      when it finds its guard. */
  lemma GuardIsExact(st: World, a: Action)
    requires Enabled(st, a) && Numbered(st.shell) && Agreed(st.shell)
    ensures Numbered(Step(st, a).shell)
    ensures Agreed(Step(st, a).shell) <==> Guard(st, a)
  {
    hide Normalized;
    if a.Finish? {
      WriteGuard(st, a.i, a.loaded);
    } else if a.Snap? {
      SnapKeeps(st.shell, a.loaded);
    } else if a.Trigger? && st.shell.bare.Some? {
      EnqueueKeeps(st.shell, st.shell.bare.value);
    } else if a.ClearPreview? {
      ClearGuard(st);
    } else if a.Generate? || a.Check? || a.Commit? || a.Adopt? {
      JobStepKeeps(st, a);
    } else if a.LoadBare? || a.LoadCache? {
      LoadGuard(st, a);
    }
  }

  lemma ClearGuard(st: World)
    requires Numbered(st.shell) && Agreed(st.shell)
    ensures var t := PreviewCleared(st.shell); Numbered(t) && (Agreed(t) <==> Guard(st, ClearPreview))
  {
    hide Normalized;
    var s, t := st.shell, PreviewCleared(st.shell);
    if s.previewing && s.cache.Some? && Agreed(t) {
      forall j | 0 <= j < |s.jobs| && Current(s, s.jobs[j])
        ensures Same(s.jobs[j].cfg.settings, t.cache.value.settings)
      {
        assert JobAgrees(t, t.jobs[j]);
      }
    }
  }

  lemma LoadGuard(st: World, a: Action)
    requires Numbered(st.shell) && Agreed(st.shell) && (a.LoadBare? || a.LoadCache?)
    ensures var t := Step(st, a).shell; Numbered(t) && (Agreed(t) <==> Guard(st, a))
  {
    hide Normalized;
    NormalizedTwice(st.shell.disk);
    var s, t := st.shell, Step(st, a).shell;
    if Guard(st, a) {
      SamePlace(s, t);
    }
  }

  lemma JobStepKeeps(st: World, a: Action)
    requires Enabled(st, a) && Numbered(st.shell) && Agreed(st.shell)
    requires a.Generate? || a.Check? || a.Commit? || a.Adopt?
    ensures var t := Step(st, a).shell; Numbered(t) && Agreed(t)
  {
    hide Normalized;
    NormalizedTwice(st.shell.jobs[a.job].cfg.settings);
    var s, t := st.shell, Step(st, a).shell;
    forall j | 0 <= j < |t.jobs|
      ensures JobAgrees(t, t.jobs[j]) && t.jobs[j].gen <= t.gen
    {
      assert JobAgrees(s, s.jobs[j]) && JobAgrees(s, s.jobs[a.job]);
    }
  }
}
