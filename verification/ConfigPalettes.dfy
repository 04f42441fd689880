/** Palettes of the configuration cache: what superseded jobs may change, and when a good palette is lost. */
module ConfigPalettes {
  import opened Wrappers
  import opened ConfigCache
  import opened ConfigSteps
  import opened ConfigRuns

  // ---------------------------------------------------------------------------------------------
  // Superseded jobs, under any interleaving
  // ---------------------------------------------------------------------------------------------

  predicate OfJob(a: Action, j: nat) {
    match a
    case Generate(i, _, _) => i == j
    case Check(i) => i == j
    case Commit(i) => i == j
    case Adopt(i) => i == j
    case _ => false
  }

  predicate SameButPalette(before: Option<Config>, after: Option<Config>) {
    before.Some? == after.Some? && (before.Some? ==> before.value.settings == after.value.settings)
  }

  /** Settings stay. The live cache is recoloured only if it shows `wallpaper`, and the second cache only
      if the live one does. */
  predicate OnlyPalettesOf(wallpaper: string, s: Shell, t: Shell) {
    && SameButPalette(s.cache, t.cache)
    && SameButPalette(s.bare, t.bare)
    && (s.cache != t.cache || s.bare != t.bare ==> s.cache.Some? && s.cache.value.settings.wallpaper == wallpaper)
    && t == s.(cache := t.cache, bare := t.bare, jobs := t.jobs)
  }

  lemma StepKeepsJob(st: World, a: Action, j: nat)
    requires Enabled(st, a) && j < |st.shell.jobs|
    ensures var s, t := st.shell, Step(st, a).shell;
            j < |t.jobs| && t.jobs[j].gen == s.jobs[j].gen
            && t.jobs[j].cfg.settings.wallpaper == s.jobs[j].cfg.settings.wallpaper
  {
    hide Normal;
    if OfJob(a, j) {
      assert Step(st, a).shell.jobs[j].gen == st.shell.jobs[j].gen;
    } else {
      OtherJobStays(st, a, j);
    }
  }

  lemma OtherJobStays(st: World, a: Action, j: nat)
    requires Enabled(st, a) && j < |st.shell.jobs| && !OfJob(a, j)
    ensures j < |Step(st, a).shell.jobs| && Step(st, a).shell.jobs[j] == st.shell.jobs[j]
  {
    hide Normalized;
  }

  lemma CounterRises(st: World, a: Action)
    requires Enabled(st, a)
    ensures st.shell.gen <= Step(st, a).shell.gen
  {
    hide Normalized;
  }

  lemma {:induction false} RunKeepsJobs(st: World, run: seq<Action>, j: nat)
    requires CanRun(st, run) && j < |st.shell.jobs|
    ensures var s, t := st.shell, After(st, run).shell;
            && s.gen <= t.gen && j < |t.jobs|
            && t.jobs[j].gen == s.jobs[j].gen && t.jobs[j].cfg.settings.wallpaper == s.jobs[j].cfg.settings.wallpaper
    decreases |run|
  {
    if run != [] {
      hide Step;
      var before := run[..|run| - 1];
      RunKeepsJobs(st, before, j);
      CounterRises(After(st, before), run[|run| - 1]);
      StepKeepsJob(After(st, before), run[|run| - 1], j);
    }
  }

  /** Once the counter has passed a job, none of its steps ever changes a setting again, and it colours
      nothing unless the live cache shows the wallpaper it was made for. */
  lemma SupersededForever(st: World, run: seq<Action>, now: World, a: Action, j: nat)
    requires j < |st.shell.jobs| && st.shell.jobs[j].gen < st.shell.gen
    requires CanRun(st, run) && After(st, run) == now
    requires Enabled(now, a) && OfJob(a, j)
    ensures OnlyPalettesOf(st.shell.jobs[j].cfg.settings.wallpaper, now.shell, Step(now, a).shell)
  {
    hide CanRun, After, Normalized;
    RunKeepsJobs(st, run, j);
  }

  // ---------------------------------------------------------------------------------------------
  // Adopted colours and the wallpaper they were made for
  // ---------------------------------------------------------------------------------------------

  predicate ShowsWallpaper(c: Option<Config>, wallpaper: string) {
    c.Some? && c.value.settings.wallpaper == wallpaper
  }

  /** A cache whose palette changed shows `wallpaper`. */
  predicate OnItsWallpaper(wallpaper: string, s: Shell, t: Shell) {
    && (s.cache != t.cache ==> ShowsWallpaper(s.cache, wallpaper))
    && (s.bare != t.bare ==> ShowsWallpaper(s.bare, wallpaper))
  }

  /** Only the live cache's wallpaper is compared. So adoption stays on its wallpaper exactly when the
      second cache is absent or shows that wallpaper too, or adoption does not apply, or the second
      cache's colours are those it would get. */
  lemma AdoptStaysOnItsWallpaperExactlyWhen(st: World, j: nat)
    requires Enabled(st, Adopt(j))
    ensures var s, cfg := st.shell, st.shell.jobs[j].cfg;
            var wallpaper := cfg.settings.wallpaper;
            OnItsWallpaper(wallpaper, s, Step(st, Adopt(j)).shell)
            <==> s.bare.None? || s.bare.value.settings.wallpaper == wallpaper
                 || !ShowsWallpaper(s.cache, wallpaper)
                 || Adopted(s.bare.value.palette, cfg.palette) == s.bare.value.palette
  {
  }

  /** Caches that agree show one wallpaper. */
  lemma AgreedAdoptStays(st: World, j: nat)
    requires Enabled(st, Adopt(j)) && CachesAgree(st.shell)
    ensures OnItsWallpaper(st.shell.jobs[j].cfg.settings.wallpaper, st.shell, Step(st, Adopt(j)).shell)
  {
    hide Normal;
  }

  /** In no run of a disciplined mutator do colours reach a cache that shows another wallpaper. */
  lemma DisciplinedAdoptStays(disk: Settings, preview: Config, run: seq<Action>, st: World, j: nat)
    requires Reaches(disk, preview, run, st) && Enabled(st, Adopt(j))
    ensures OnItsWallpaper(st.shell.jobs[j].cfg.settings.wallpaper, st.shell, Step(st, Adopt(j)).shell)
  {
    hide Reaches, OnItsWallpaper, Precise, Step;
    ReachedIsSound(disk, preview, run, st);
    PreciseAgrees(st.shell);
    AgreedAdoptStays(st, j);
  }

  /** The files change the wallpaper, a preview of the old one is shown and cleared, and a job made for the
      old one recolours the second cache, which shows the new one. */
  lemma ColorsReachAnotherWallpaper(first: Settings, p: Palette, dragged: Config, edited: Settings, made: Palette)
    requires dragged.settings.wallpaper == first.wallpaper && edited.wallpaper != first.wallpaper
    requires made.matugen.ok && made.matugen != p.matugen
    ensures var bumped := Step(Step(Snapshotted(first, p, dragged), EditDisk(edited)), Begin(Light));
            && Enabled(bumped, Finish(0, p))
            && var shown := Step(Step(bumped, Finish(0, p)), ShowPreview(dragged));
            var cleared := Step(shown, ClearPreview);
            && Enabled(cleared, Generate(0, made, false))
            && var generated := Step(cleared, Generate(0, made, false));
            && Enabled(generated, Check(0))
            && var checked := Step(generated, Check(0));
            && Enabled(checked, Adopt(0))
            && !OnItsWallpaper(first.wallpaper, checked.shell, Step(checked, Adopt(0)).shell)
            && ShowsWallpaper(Step(checked, Adopt(0)).shell.bare, edited.wallpaper)
  {
    hide Snapshotted, Normal;
    SnapshottedIs(first, p, dragged);
    var cfg, reread := FromFiles(first, p), FromFiles(edited, p);
    var bumped := Step(Step(Snapshotted(first, p, dragged), EditDisk(edited)), Begin(Light));
    assert bumped == World(Shell(Some(cfg), Some(cfg), 2, dragged, false, edited, [Job(1, cfg, Queued)]), [Light], true);
    var lit := Step(bumped, Finish(0, p));
    assert lit == World(Shell(Some(reread), Some(reread), 2, dragged, false, edited, [Job(1, cfg, Queued)]), [], false);
    var cleared := Step(Step(lit, ShowPreview(dragged)), ClearPreview);
    var live := Some(DragMerged(reread, dragged));
    assert cleared == World(Shell(live, Some(reread), 2, dragged, false, edited, [Job(1, cfg, Queued)]), [], false);
    OldJobRecolours(cleared, cfg, made);
  }

  lemma OldJobRecolours(st: World, cfg: Config, made: Palette)
    requires |st.shell.jobs| == 1 && st.shell.jobs[0] == Job(1, cfg, Queued) && st.shell.gen == 2
    requires ShowsWallpaper(st.shell.cache, cfg.settings.wallpaper) && st.shell.bare.Some?
    requires st.shell.bare.value.settings.wallpaper != cfg.settings.wallpaper
    requires made.matugen.ok && made.matugen != st.shell.bare.value.palette.matugen
    ensures var generated := Step(st, Generate(0, made, false));
            && Enabled(generated, Check(0))
            && var checked := Step(generated, Check(0));
            && Enabled(checked, Adopt(0))
            && !OnItsWallpaper(cfg.settings.wallpaper, checked.shell, Step(checked, Adopt(0)).shell)
            && ShowsWallpaper(Step(checked, Adopt(0)).shell.bare, st.shell.bare.value.settings.wallpaper)
  {
    hide Normalized;
    var checked := Step(Step(st, Generate(0, made, false)), Check(0));
    assert checked.shell
      == st.shell.(jobs := [Job(1, Config(cfg.settings, made), Superseded)]);
    AdoptStaysOnItsWallpaperExactlyWhen(checked, 0);
  }

  // ---------------------------------------------------------------------------------------------
  // A good palette survives
  // ---------------------------------------------------------------------------------------------

  /** The two engines that make colours. */
  datatype Engine = Matugen | Native

  function ColorsOf(palette: Palette, engine: Engine): Colors {
    if engine == Matugen then palette.matugen else palette.native
  }

  predicate Good(s: Shell, engine: Engine) {
    s.cache.Some? && ColorsOf(s.cache.value.palette, engine).ok
  }

  /** The steps after which a good palette may be gone. */
  predicate Discards(st: World, a: Action, engine: Engine)
    requires Enabled(st, a)
  {
    match a
    case Finish(i, loaded) => st.pending[i].Reset? || (st.pending[i].Reload? && !ColorsOf(loaded, engine).ok)
    case Restore(colors) => engine == Matugen && !colors.ok
    case ClearPreview => st.shell.previewing && !ColorsOf(st.shell.preview.palette, engine).ok
    case Commit(j) => st.shell.jobs[j].gen == st.shell.gen && !ColorsOf(st.shell.jobs[j].cfg.palette, engine).ok
    case _ => false
  }

  lemma GoodPaletteIsLostExactlyWhen(st: World, a: Action, engine: Engine)
    requires Enabled(st, a) && Good(st.shell, engine)
    ensures Good(Step(st, a).shell, engine) <==> !Discards(st, a, engine)
  {
  }

  /** Light invalidations, in-memory applies, and the work of superseded jobs. */
  predicate Gentle(st: World, a: Action)
    requires Enabled(st, a)
  {
    match a
    case Finish(i, _) => st.pending[i].Light? || st.pending[i].Apply?
    case Commit(j) => st.shell.jobs[j].gen != st.shell.gen
    case Restore(_) => false
    case ClearPreview => !st.shell.previewing
    case _ => true
  }

  predicate GentleRun(st: World, run: seq<Action>)
    requires CanRun(st, run)
    decreases |run|
  {
    run == [] || (GentleRun(st, run[..|run| - 1]) && Gentle(After(st, run[..|run| - 1]), run[|run| - 1]))
  }

  /** The colours a superseded job lends in one step, else the ones shown before it. */
  function Lent(st: World, a: Action, engine: Engine, shown: Colors): Colors
    requires Enabled(st, a)
  {
    if a.Adopt? && st.shell.cache.Some? then
      var cfg := st.shell.jobs[a.job].cfg;
      if st.shell.cache.value.settings.wallpaper == cfg.settings.wallpaper && ColorsOf(cfg.palette, engine).ok
      then ColorsOf(cfg.palette, engine) else shown
    else shown
  }

  function LastLent(st: World, run: seq<Action>, engine: Engine, shown: Colors): Colors
    requires CanRun(st, run)
    decreases |run|
  {
    if run == [] then shown
    else Lent(After(st, run[..|run| - 1]), run[|run| - 1], engine, LastLent(st, run[..|run| - 1], engine, shown))
  }

  predicate Shows(s: Shell, engine: Engine, colors: Colors) {
    s.cache.Some? && ColorsOf(s.cache.value.palette, engine) == colors
  }

  lemma GentleStepKeepsColors(st: World, a: Action, engine: Engine, shown: Colors)
    requires Enabled(st, a) && Gentle(st, a) && shown.ok && Shows(st.shell, engine, shown)
    ensures Shows(Step(st, a).shell, engine, Lent(st, a, engine, shown)) && Lent(st, a, engine, shown).ok
  {
  }

  /** Through any such run the cache shows the colours it started with, or the last ones a
      superseded job for the same wallpaper lent it; they stay good. */
  lemma {:induction false} GoodPaletteSurvives(st: World, run: seq<Action>, engine: Engine, shown: Colors)
    requires CanRun(st, run) && GentleRun(st, run) && shown.ok && Shows(st.shell, engine, shown)
    ensures var colors := LastLent(st, run, engine, shown); Shows(After(st, run).shell, engine, colors) && colors.ok
    decreases |run|
  {
    if run != [] {
      hide Step, Gentle, Lent;
      var before := run[..|run| - 1];
      GoodPaletteSurvives(st, before, engine, shown);
      GentleStepKeepsColors(After(st, before), run[|run| - 1], engine, LastLent(st, before, engine, shown));
    }
  }
}
