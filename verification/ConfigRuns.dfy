/** The configuration cache with one disciplined mutator, and what goes wrong without the discipline. */
module ConfigRuns {
  import opened Wrappers
  import opened ConfigCache
  import opened ConfigSteps

  // ---------------------------------------------------------------------------------------------
  // One mutator
  // ---------------------------------------------------------------------------------------------

  /** A single mutator finishes one write before it does anything else. After the files change it
      replaces the caches before it loads only one of them, and it clears no shown preview. */
  predicate Disciplined(st: World, a: Action) {
    && Enabled(st, a)
    && (match a
        case Finish(_, _) => true
        case EditDisk(_) => true
        case Generate(_, _, _) => true
        case Check(_) => true
        case Commit(_) => true
        case Adopt(_) => true
        case LoadBare(_) => st.pending == [] && (st.edited ==> Empty(st.shell) || st.shell.bare.Some?)
        case LoadCache(_) => st.pending == [] && (st.edited ==> Empty(st.shell) || st.shell.cache.Some?)
        case ClearPreview => st.pending == [] && (st.shell.previewing ==> st.shell.cache.None?)
        case _ => st.pending == [])
  }

  /** A present cache holds exactly these settings. */
  predicate Exactly(c: Option<Config>, settings: Settings) {
    c.Some? ==> c.value.settings == settings
  }

  /** Until the files change, a cache that stands alone is what they say. */
  predicate LoneCacheIsDisk(st: World) {
    var s := st.shell;
    !st.edited && !(s.cache.Some? && s.bare.Some?)
    ==> Exactly(s.cache, Normalized(s.disk)) && Exactly(s.bare, Normalized(s.disk))
  }

  /** A present cache's settings are the job's, or would be after respelling. */
  predicate Respells(c: Option<Config>, settings: Settings) {
    c.Some? ==> settings == c.value.settings || settings == Normalized(c.value.settings)
  }

  /** Agreement to the letter: only the generator's respelling tells a current job from the caches. */
  predicate Precise(s: Shell) {
    && (s.cache.Some? && s.bare.Some? ==> s.cache.value.settings == s.bare.value.settings)
    && forall j :: 0 <= j < |s.jobs| && Current(s, s.jobs[j]) ==>
         (s.cache.Some? || s.bare.Some?)
         && Respells(s.cache, s.jobs[j].cfg.settings) && Respells(s.bare, s.jobs[j].cfg.settings)
  }

  predicate OneCurrentJob(s: Shell) {
    forall i, j :: 0 <= i < j < |s.jobs| ==> !(Current(s, s.jobs[i]) && Current(s, s.jobs[j]))
  }

  /** Between the mutator's bump and its write no job is current. */
  predicate Sound(st: World) {
    && Numbered(st.shell)
    && Precise(st.shell)
    && OneCurrentJob(st.shell)
    && LoneCacheIsDisk(st)
    && |st.pending| <= 1
    && (st.pending != [] ==> NoCurrentJob(st.shell))
  }

  /** The settings are the job's up to spelling. */
  lemma RespelledIsSame(c: Option<Config>, settings: Settings)
    requires Respells(c, settings)
    ensures Holds(c, settings)
  {
    hide Normalized;
    if c.Some? {
      NormalizedTwice(c.value.settings);
    }
  }

  lemma PreciseAgrees(s: Shell)
    requires Precise(s)
    ensures Agreed(s)
  {
    hide Same, Normalized, Respells, Holds;
    assert CachesAgree(s) by {
      if s.cache.Some? && s.bare.Some? {
        SameAsItself(s.cache.value.settings);
      }
    }
    forall j | 0 <= j < |s.jobs|
      ensures JobAgrees(s, s.jobs[j])
    {
      if Current(s, s.jobs[j]) {
        RespelledIsSame(s.cache, s.jobs[j].cfg.settings);
        RespelledIsSame(s.bare, s.jobs[j].cfg.settings);
      }
    }
  }

  lemma SameAsItself(settings: Settings)
    ensures Same(settings, settings)
  {
  }

  lemma DisciplineMeetsGuard(st: World, a: Action)
    requires Sound(st) && Disciplined(st, a)
    ensures Guard(st, a)
  {
    hide Normalized;
    NormalizedTwice(st.shell.disk);
  }

  lemma PendingLeavesNoCurrentJob(st: World, a: Action)
    requires Sound(st) && Disciplined(st, a) && Step(st, a).pending != []
    ensures NoCurrentJob(Step(st, a).shell)
  {
    hide Normalized;
    var s, t := st.shell, Step(st, a).shell;
    forall j | 0 <= j < |t.jobs|
      ensures !Current(t, t.jobs[j])
    {
      assert s.jobs[j].gen == t.jobs[j].gen <= s.gen;
      if st.pending != [] {
        assert !Current(s, s.jobs[j]);
      }
    }
  }

  lemma LoneCacheStaysDisk(st: World, a: Action)
    requires Sound(st) && Disciplined(st, a)
    ensures LoneCacheIsDisk(Step(st, a))
  {
    hide Normalized;
  }

  lemma NumbersStay(st: World, a: Action)
    requires Sound(st) && Disciplined(st, a)
    ensures Numbered(Step(st, a).shell)
  {
    hide Same, Normalized;
    PreciseAgrees(st.shell);
    GuardIsExact(st, a);
  }

  /** A step on job `j` changes nothing about the others. */
  lemma OtherJobs(st: World, a: Action)
    requires Enabled(st, a) && (a.Generate? || a.Check? || a.Commit? || a.Adopt?)
    ensures var s, t := st.shell, Step(st, a).shell;
            && |t.jobs| == |s.jobs| && t.gen == s.gen
            && (forall i :: 0 <= i < |s.jobs| && i != a.job ==> t.jobs[i] == s.jobs[i])
            && (Current(t, t.jobs[a.job]) ==> Current(s, s.jobs[a.job]))
  {
    hide Normalized;
  }

  /** Any other step leaves the jobs alone, or makes the one it adds the only current one. */
  lemma AtMostOneJobMore(st: World, a: Action)
    requires Sound(st) && Disciplined(st, a) && !(a.Generate? || a.Check? || a.Commit? || a.Adopt?)
    ensures var s, t := st.shell, Step(st, a).shell;
            || (t.jobs == s.jobs && t.gen == s.gen)
            || (t.jobs == s.jobs && NoCurrentJob(t))
            || (|t.jobs| == |s.jobs| + 1 && t.jobs[..|s.jobs|] == s.jobs
                && forall i :: 0 <= i < |s.jobs| ==> !Current(t, s.jobs[i]))
  {
    hide Normalized, Precise, LoneCacheIsDisk;
  }

  lemma OneJobStays(st: World, a: Action)
    requires Sound(st) && Disciplined(st, a)
    ensures OneCurrentJob(Step(st, a).shell)
  {
    hide Step, Precise, LoneCacheIsDisk, Numbered;
    var s, t := st.shell, Step(st, a).shell;
    if a.Generate? || a.Check? || a.Commit? || a.Adopt? {
      OtherJobs(st, a);
    } else {
      AtMostOneJobMore(st, a);
      forall i, j | 0 <= i < j < |t.jobs|
        ensures !(Current(t, t.jobs[i]) && Current(t, t.jobs[j]))
      {
        if |t.jobs| != |s.jobs| {
          assert t.jobs[i] == t.jobs[..|s.jobs|][i];
        }
      }
    }
  }

  /** The one current job is done when it has committed. */
  lemma PreciseAfterCommit(st: World, i: nat)
    requires Sound(st) && Enabled(st, Commit(i))
    ensures Precise(Step(st, Commit(i)).shell)
  {
    hide Normalized, LoneCacheIsDisk, Numbered;
    var s, t := st.shell, Step(st, Commit(i)).shell;
    if s.jobs[i].gen == s.gen {
      OtherJobs(st, Commit(i));
      forall j | 0 <= j < |s.jobs| && j != i
        ensures !Current(t, t.jobs[j])
      {
        assert Current(s, s.jobs[i]) && t.jobs[j] == s.jobs[j];
      }
    }
  }

  lemma PreciseAfterJob(st: World, a: Action)
    requires Sound(st) && Disciplined(st, a) && (a.Generate? || a.Check? || a.Adopt?)
    ensures Precise(Step(st, a).shell)
  {
    hide Normalized, LoneCacheIsDisk, Numbered, OneCurrentJob;
    var s, t := st.shell, Step(st, a).shell;
    OtherJobs(st, a);
    if s.cache.Some? {
      NormalizedTwice(s.cache.value.settings);
    }
    if s.bare.Some? {
      NormalizedTwice(s.bare.value.settings);
    }
    forall j | 0 <= j < |t.jobs| && Current(t, t.jobs[j])
      ensures (t.cache.Some? || t.bare.Some?)
              && Respells(t.cache, t.jobs[j].cfg.settings) && Respells(t.bare, t.jobs[j].cfg.settings)
    {
      assert Current(s, s.jobs[j]);
    }
  }

  lemma PreciseAfterWrite(st: World, a: Action)
    requires Sound(st) && Disciplined(st, a) && a.Finish?
    ensures Precise(Step(st, a).shell)
  {
    hide Normalized, LoneCacheIsDisk, Numbered, Precise;
    var s, t := st.shell, Step(st, a).shell;
    forall j | 0 <= j < |s.jobs|
      ensures t.jobs[j] == s.jobs[j] && !Current(t, t.jobs[j])
    {
    }
    WriteIsPrecise(s, st.pending[a.i], a.loaded);
  }

  lemma WriteIsPrecise(s: Shell, w: Write, loaded: Palette)
    requires NoCurrentJob(s)
    ensures Precise(Written(s, w, loaded))
  {
    hide Normalized;
  }

  lemma PreciseAfterBump(s: Shell, cfg: Config)
    requires Numbered(s) && Exactly(s.cache, cfg.settings) && Exactly(s.bare, cfg.settings) && s.bare.Some?
    ensures Precise(Enqueued(Bumped(s), cfg))
  {
    hide Normalized;
  }

  lemma PreciseStays(st: World, a: Action)
    requires Sound(st) && Disciplined(st, a)
    ensures Precise(Step(st, a).shell)
  {
    hide Normalized, OneCurrentJob, Numbered;
    if a.Commit? {
      PreciseAfterCommit(st, a.job);
    } else if a.Generate? || a.Check? || a.Adopt? {
      PreciseAfterJob(st, a);
    } else if a.Finish? {
      PreciseAfterWrite(st, a);
    } else if a.Trigger? {
      if st.shell.bare.Some? {
        PreciseAfterBump(st.shell, st.shell.bare.value);
      }
    } else if a.Snap? {
      PreciseAfterSnap(st.shell, a.loaded);
    } else if a.Begin? {
      PreciseAfterBegin(st.shell);
    }
  }

  lemma PreciseAfterBegin(s: Shell)
    requires Numbered(s) && Precise(s)
    ensures Precise(Bumped(s))
  {
    hide Normalized;
  }

  lemma PreciseAfterSnap(s: Shell, loaded: Palette)
    requires Numbered(s) && Precise(s)
    ensures Precise(Snapped(s, loaded))
  {
    hide Normalized;
    if s.cache.None? {
      var cfg := if s.bare.Some? then s.bare.value else FromFiles(s.disk, loaded);
      PreciseAfterBump(s.(cache := Some(cfg), bare := Some(cfg)), cfg);
    }
  }

  lemma DisciplineKeepsSound(st: World, a: Action)
    requires Sound(st) && Disciplined(st, a)
    ensures Sound(Step(st, a))
  {
    hide Step, Numbered, Precise, OneCurrentJob, LoneCacheIsDisk, NoCurrentJob;
    NumbersStay(st, a);
    PreciseStays(st, a);
    OneJobStays(st, a);
    LoneCacheStaysDisk(st, a);
    OnePending(st, a);
    if Step(st, a).pending != [] {
      PendingLeavesNoCurrentJob(st, a);
    }
  }

  lemma OnePending(st: World, a: Action)
    requires |st.pending| <= 1 && Disciplined(st, a)
    ensures |Step(st, a).pending| <= 1
  {
    hide Normalized;
  }

  predicate DisciplinedRun(st: World, run: seq<Action>)
    requires CanRun(st, run)
    decreases |run|
  {
    run == [] || (DisciplinedRun(st, run[..|run| - 1]) && Disciplined(After(st, run[..|run| - 1]), run[|run| - 1]))
  }

  function Start(disk: Settings, preview: Config): World {
    World(Shell(None, None, 0, preview, false, disk, []), [], false)
  }

  lemma {:induction false} DisciplinedRunsStaySound(st: World, run: seq<Action>)
    requires Sound(st) && CanRun(st, run) && DisciplinedRun(st, run)
    ensures Sound(After(st, run))
    decreases |run|
  {
    if run != [] {
      hide Sound, Disciplined, Step;
      var before := run[..|run| - 1];
      DisciplinedRunsStaySound(st, before);
      DisciplineKeepsSound(After(st, before), run[|run| - 1]);
    }
  }

  /** The configuration a reader would get: the cache, or what a snapshot would copy into it. */
  function Live(s: Shell): Option<Config> {
    if s.cache.Some? then s.cache else s.bare
  }

  /** A disciplined run from an empty shell ends in `st`. */
  ghost predicate Reaches(disk: Settings, preview: Config, run: seq<Action>, st: World) {
    && CanRun(Start(disk, preview), run)
    && DisciplinedRun(Start(disk, preview), run)
    && After(Start(disk, preview), run) == st
  }

  lemma ReachedIsSound(disk: Settings, preview: Config, run: seq<Action>, st: World)
    requires Reaches(disk, preview, run, st)
    ensures Sound(st)
  {
    assert Sound(Start(disk, preview));
    DisciplinedRunsStaySound(Start(disk, preview), run);
  }

  /** What a commit does to the live configuration: its palette is replaced, scheme and mode are left as
      they are or respelled, and nothing else changes. */
  ghost predicate OnlyThePalette(before: Shell, after: Shell, palette: Palette) {
    && Live(before).Some?
    && var settings := Live(before).value.settings;
    && (after.cache == Some(Config(settings, palette)) || after.cache == Some(Config(Normalized(settings), palette)))
    && after.bare == after.cache
    && Exactly(before.bare, settings)
    && after == before.(cache := after.cache, bare := after.bare, jobs := after.jobs)
  }

  /** The main result: a job that commits while its generation is current changes nothing but the palette
      and the spelling of scheme and mode, in every run of a disciplined mutator beside any number of jobs. */
  lemma CurrentCommitChangesOnlyThePalette(disk: Settings, preview: Config, run: seq<Action>, st: World, j: nat)
    requires Reaches(disk, preview, run, st)
    requires Enabled(st, Commit(j)) && st.shell.jobs[j].gen == st.shell.gen
    ensures OnlyThePalette(st.shell, Step(st, Commit(j)).shell, st.shell.jobs[j].cfg.palette)
  {
    hide Reaches, Normalized;
    ReachedIsSound(disk, preview, run, st);
    assert Current(st.shell, st.shell.jobs[j]);
  }

  // ---------------------------------------------------------------------------------------------
  // Why the discipline is needed
  // ---------------------------------------------------------------------------------------------

  /** The settings a snapshot would give: those of the cache, or of the second one, or the files'. */
  function Shown(s: Shell): Settings {
    if Live(s).Some? then Live(s).value.settings else Normalized(s.disk)
  }

  /** A job commits as current and gives a reader other settings, not just another spelling. */
  predicate CommitOverwritesSettings(st: World, j: nat) {
    && Enabled(st, Commit(j))
    && st.shell.jobs[j].gen == st.shell.gen
    && !Same(Shown(st.shell), st.shell.jobs[j].cfg.settings)
    && Shown(Step(st, Commit(j)).shell) == st.shell.jobs[j].cfg.settings
  }

  predicate CanGenerate(st: World, j: nat) {
    JobIs(st.shell, j, Queued) && st.shell.jobs[j].gen == st.shell.gen
  }

  /** A current job generates its palette and passes its first look at the counter. */
  function Ready(st: World, j: nat, made: Palette): World
    requires CanGenerate(st, j)
  {
    Step(Step(st, Generate(j, made, false)), Check(j))
  }

  lemma ReadyIs(st: World, j: nat, made: Palette)
    requires CanGenerate(st, j)
    ensures var job := st.shell.jobs[j];
            Ready(st, j, made)
            == st.(shell := st.shell.(jobs := st.shell.jobs[j := Job(job.gen, job.cfg.(palette := made), Passed)]))
  {
    hide Normalized;
  }

  /** Choices stay different when one of them is respelled. */
  lemma StillDifferent(a: Settings, b: Settings)
    requires !Same(a, b)
    ensures !Same(a, Normalized(b)) && !Same(Normalized(b), a) && !Same(Normalized(a), Normalized(b))
  {
    hide Normalized;
    NormalizedTwice(a);
    NormalizedTwice(b);
  }

  /** Clearing a drag preview edits the cache under a job's feet. */
  lemma ClearingAPreviewIsNotCovered(first: Settings, p: Palette, dragged: Config)
    requires dragged.settings.wallpaper != first.wallpaper
    ensures var snapped := Step(Start(first, dragged), Snap(p));
            && CanGenerate(snapped, 0)
            && var shown := Step(Ready(snapped, 0, p), ShowPreview(dragged));
            CommitOverwritesSettings(Step(shown, ClearPreview), 0)
  {
    hide Ready, Normal;
    ReadyIs(Step(Start(first, dragged), Snap(p)), 0, p);
  }

  /** The first snapshot of an empty shell. */
  function Snapshotted(first: Settings, p: Palette, blank: Config): World {
    Step(Start(first, blank), Snap(p))
  }

  lemma SnapshottedIs(first: Settings, p: Palette, blank: Config)
    ensures var cfg := FromFiles(first, p);
            Snapshotted(first, p, blank)
            == World(Shell(Some(cfg), Some(cfg), 1, blank, false, first, [Job(1, cfg, Queued)]), [], false)
  {
    hide Normalized;
  }

  /** With a second mutator, its trigger can land between the first one's bump and its write. */
  lemma TwoMutatorsAreNotCovered(first: Settings, p: Palette, blank: Config, edited: Settings)
    requires !Same(edited, first)
    ensures var bumped := Step(Step(Snapshotted(first, p, blank), EditDisk(edited)), Begin(Light));
            var triggered := Step(bumped, Trigger);
            && Enabled(triggered, Finish(0, p))
            && var lit := Step(triggered, Finish(0, p));
            && CanGenerate(lit, 1)
            && CommitOverwritesSettings(Ready(lit, 1, p), 1)
  {
    hide Ready, Snapshotted, Normalized;
    SnapshottedIs(first, p, blank);
    var cfg := FromFiles(first, p);
    var triggered := Step(Step(Step(Snapshotted(first, p, blank), EditDisk(edited)), Begin(Light)), Trigger);
    assert triggered == World(Shell(Some(cfg), Some(cfg), 3, blank, false, edited,
                                    [Job(1, cfg, Queued), Job(3, cfg, Queued)]), [Light], true);
    StillDifferent(edited, first);
    LateWriteLosesToTheTrigger(triggered, cfg, p);
  }

  /** The locked half of a light write, after a trigger has already numbered a job on the old settings. */
  lemma LateWriteLosesToTheTrigger(st: World, cfg: Config, p: Palette)
    requires st.pending == [Light] && |st.shell.jobs| == 2 && st.shell.jobs[1] == Job(st.shell.gen, cfg, Queued)
    requires !Same(cfg.settings, st.shell.disk)
    ensures var lit := Step(st, Finish(0, p));
            && CanGenerate(lit, 1)
            && CommitOverwritesSettings(Ready(lit, 1, p), 1)
  {
    hide Ready, Normalized;
    StillDifferent(cfg.settings, st.shell.disk);
    ReadyIs(Step(st, Finish(0, p)), 1, p);
  }

  /** A bump between the edit and the next load is not enough: a trigger bumps the counter but keeps
      the old configuration, and loading only the other cache then splits the two. */
  lemma ABumpAloneIsNotEnough(first: Settings, p: Palette, blank: Config, edited: Settings)
    requires !Same(edited, first)
    ensures var loaded := Step(Start(first, blank), LoadBare(p));
            var triggered := Step(Step(loaded, EditDisk(edited)), Trigger);
            var split := Step(triggered, LoadCache(p));
            && CanGenerate(split, 0)
            && CommitOverwritesSettings(Ready(split, 0, p), 0)
  {
    hide Ready, Normalized;
    var cfg := FromFiles(first, p);
    var edit := Step(Step(Start(first, blank), LoadBare(p)), EditDisk(edited));
    assert edit == World(Shell(None, Some(cfg), 0, blank, false, edited, []), [], true);
    StillDifferent(edited, first);
    LoneLoadSplitsTheCaches(edit, cfg, p);
  }

  lemma LoneLoadSplitsTheCaches(st: World, cfg: Config, p: Palette)
    requires st.shell.cache.None? && st.shell.bare == Some(cfg) && !Same(cfg.settings, st.shell.disk)
    requires st.shell.jobs == []
    ensures var split := Step(Step(st, Trigger), LoadCache(p));
            && CanGenerate(split, 0)
            && CommitOverwritesSettings(Ready(split, 0, p), 0)
  {
    hide Ready, Normalized;
    StillDifferent(cfg.settings, st.shell.disk);
    ReadyIs(Step(Step(st, Trigger), LoadCache(p)), 0, p);
  }
}
