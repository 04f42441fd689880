/** What each operation on the configuration leaves in the fields of the shell, and when a palette is asked for. */
module ConfigLaws {
  import opened Wrappers
  import opened ConfigCache
  import opened ConfigSteps

  /** Some palette is to be made for these settings. */
  predicate WantsPalette(settings: Settings) {
    settings.theming || settings.native
  }

  /** A current job is under way for the live cache. */
  ghost predicate PaletteIsComing(s: Shell) {
    s.cache.Some? && exists j :: 0 <= j < |s.jobs| && s.jobs[j] == Job(s.gen, s.cache.value, Queued)
  }

  /** The files' settings, with scheme and mode as the normal spelling of what they say. */
  predicate ReadFrom(disk: Settings, loaded: Palette, c: Config) {
    && c.palette == loaded
    && c.settings.wallpaper == disk.wallpaper && c.settings.dragged == disk.dragged && c.settings.rest == disk.rest
    && c.settings.theming == disk.theming && c.settings.native == disk.native
    && c.settings.scheme.text == disk.scheme.normal && c.settings.mode.text == disk.mode.normal
    && c.settings.scheme.normal == disk.scheme.normal && c.settings.mode.normal == disk.mode.normal
  }

  /** Counter and jobs as before, or one more of both. */
  predicate Asked(s: Shell, t: Shell, asks: bool) {
    if asks then t.cache.Some? && t.gen == s.gen + 1 && t.jobs == s.jobs + [Job(t.gen, t.cache.value, Queued)]
    else t.gen == s.gen && t.jobs == s.jobs
  }

  /** A snapshot fills an absent cache from the second one, else both from the files. It asks for a palette unless it
      found a second cache that wants none. */
  lemma SnapSaid(st: World, loaded: Palette)
    ensures var s, t := st.shell, Step(st, Snap(loaded)).shell;
            if s.cache.Some? then t == s
            else
              && t.cache.Some? && t.bare == t.cache
              && (if s.bare.Some? then t.cache == s.bare else ReadFrom(s.disk, loaded, t.cache.value))
              && Asked(s, t, s.bare.None? || WantsPalette(s.bare.value.settings))
              && t == s.(cache := t.cache, bare := t.bare, gen := t.gen, jobs := t.jobs)
  {
  }

  /** The two ways to fill the live cache that promise its palette later keep the promise. */
  lemma PaletteIsComingAfter(st: World, a: Action)
    requires Enabled(st, a)
    requires (a.Snap? && st.shell.cache.None?) || (a.Finish? && st.pending[a.i] == Reload(true))
    ensures var t := Step(st, a).shell;
            t.cache.Some? && (WantsPalette(t.cache.value.settings) ==> PaletteIsComing(t))
  {
    var s, t := st.shell, Step(st, a).shell;
    if WantsPalette(t.cache.value.settings) {
      assert t.jobs[|s.jobs|] == Job(t.gen, t.cache.value, Queued);
    }
  }

  /** A reload reads the files into the live cache, drops the second one, and asks for the palettes it skipped
      under the number of its own bump. */
  lemma ReloadSaid(st: World, i: nat, skip: bool, loaded: Palette)
    requires i < |st.pending| && st.pending[i] == Reload(skip)
    ensures var s, t := st.shell, Step(st, Finish(i, loaded)).shell;
            && t.cache.Some? && ReadFrom(s.disk, loaded, t.cache.value) && t.bare == None && !t.previewing
            && t.gen == s.gen
            && t.jobs == (if skip && WantsPalette(t.cache.value.settings) then s.jobs + [Job(s.gen, t.cache.value, Queued)]
                          else s.jobs)
  {
  }

  /** Good colours of the old live cache win over those the new configuration came with. */
  predicate Lends(live: Option<Config>, came: Palette, palette: Palette) {
    && palette.matugen == (if live.Some? && live.value.palette.matugen.ok then live.value.palette.matugen else came.matugen)
    && palette.native == (if live.Some? && live.value.palette.native.ok then live.value.palette.native else came.native)
  }

  /** A light invalidation gives both caches the files' settings, with the colours the live one can lend. */
  lemma LightSaid(st: World, i: nat, loaded: Palette)
    requires i < |st.pending| && st.pending[i] == Light
    ensures var s, t := st.shell, Step(st, Finish(i, loaded)).shell;
            && t.cache.Some? && t.bare == t.cache
            && ReadFrom(s.disk, t.cache.value.palette, t.cache.value)
            && Lends(s.cache, loaded, t.cache.value.palette)
            && t == s.(cache := t.cache, bare := t.bare, previewing := false)
  {
  }

  /** So does an apply, with the settings of the configuration applied. */
  lemma ApplySaid(st: World, i: nat, sc: Config, loaded: Palette)
    requires i < |st.pending| && st.pending[i] == Apply(sc)
    ensures var s, t := st.shell, Step(st, Finish(i, loaded)).shell;
            && t.cache.Some? && t.bare == t.cache
            && t.cache.value.settings == sc.settings
            && Lends(s.cache, sc.palette, t.cache.value.palette)
            && t == s.(cache := t.cache, bare := t.bare, previewing := false)
  {
  }

  /** A reset leaves neither cache. */
  lemma ResetSaid(st: World, i: nat, loaded: Palette)
    requires i < |st.pending| && st.pending[i] == Reset
    ensures Step(st, Finish(i, loaded)).shell == st.shell.(cache := None, bare := None, previewing := false)
  {
  }

  /** The palettes an apply has to ask for: those wanted and not lent. */
  function Missing(sc: Config, live: Option<Config>): nat {
    (if sc.settings.theming && (live.None? || !live.value.palette.matugen.ok) then 1 else 0)
    + (if sc.settings.native && (live.None? || !live.value.palette.native.ok) then 1 else 0)
  }

  /** Each of them is asked for by a job of its own, and only the last of these is current. */
  lemma ApplyAsksForTheMissing(s: Shell, sc: Config, loaded: Palette)
    ensures var t, n := AppliedFromMemory(s, sc, loaded), Missing(sc, s.cache);
            && t.cache.Some? && t.bare == t.cache && t.cache.value.settings == sc.settings
            && t.gen == s.gen + 1 + n && |t.jobs| == |s.jobs| + n && t.jobs[..|s.jobs|] == s.jobs
            && forall j :: |s.jobs| <= j < |t.jobs| ==> t.jobs[j] == Job(s.gen + 2 + j - |s.jobs|, t.cache.value, Queued)
  {
  }

  /** A restore puts exactly the given colours into the live cache, made from the second one if need be, and leaves
      everything else. */
  lemma RestoreSaid(st: World, colors: Colors)
    ensures var s, t := st.shell, Step(st, Restore(colors)).shell;
            if s.cache.None? && s.bare.None? then t == s
            else
              var from := if s.cache.Some? then s.cache.value else s.bare.value;
              && t.cache.Some? && t.cache.value.settings == from.settings
              && t.cache.value.palette.matugen == colors && t.cache.value.palette.native == from.palette.native
              && t == s.(cache := t.cache)
  {
  }

  /** A trigger asks for the palette of the second cache, and without one does nothing. */
  lemma TriggerSaid(st: World)
    ensures var s, t := st.shell, Step(st, Trigger).shell;
            if s.bare.None? then t == s
            else t.jobs == s.jobs + [Job(t.gen, s.bare.value, Queued)] && t == s.(gen := s.gen + 1, jobs := t.jobs)
  {
  }

  /** A partial load fills only its own cache, and only if it is absent. */
  lemma LoadsSaid(st: World, loaded: Palette)
    ensures var s, t := st.shell, Step(st, LoadBare(loaded)).shell;
            t == s.(bare := t.bare) && t.bare.Some? && if s.bare.Some? then t == s else ReadFrom(s.disk, loaded, t.bare.value)
    ensures var s, t := st.shell, Step(st, LoadCache(loaded)).shell;
            t == s.(cache := t.cache) && t.cache.Some? && if s.cache.Some? then t == s else ReadFrom(s.disk, loaded, t.cache.value)
  {
  }

  /** What the settings page drags is taken from the preview: all but the rest of the settings. */
  lemma ClearPreviewSaid(st: World)
    ensures var s, t := st.shell, Step(st, ClearPreview).shell;
            && !t.previewing && t == s.(cache := t.cache, previewing := false)
            && if s.previewing && s.cache.Some? then
                 && t.cache.Some? && t.cache.value.palette == s.preview.palette
                 && t.cache.value.settings.rest == s.cache.value.settings.rest
                 && t.cache.value.settings == s.preview.settings.(rest := s.cache.value.settings.rest)
               else t.cache == s.cache
  {
  }

  /** A job makes its palette for the configuration it was queued with, and its first look at the counter decides
      which of the two ends it can come to. */
  lemma JobSaid(st: World, j: nat, made: Palette, respelled: bool)
    ensures Enabled(st, Generate(j, made, respelled)) ==>
              var s, t := st.shell, Step(st, Generate(j, made, respelled)).shell;
              && t == s.(jobs := s.jobs[j := t.jobs[j]])
              && t.jobs[j].gen == s.jobs[j].gen && t.jobs[j].stage == Made && t.jobs[j].cfg.palette == made
              && if respelled then ReadFrom(s.jobs[j].cfg.settings, made, t.jobs[j].cfg)
                 else t.jobs[j].cfg.settings == s.jobs[j].cfg.settings
    ensures Enabled(st, Check(j)) ==>
              var s, t := st.shell, Step(st, Check(j)).shell;
              t == s.(jobs := s.jobs[j := Job(s.jobs[j].gen, s.jobs[j].cfg, t.jobs[j].stage)])
              && t.jobs[j].stage == if s.jobs[j].gen == s.gen then Passed else Superseded
  {
  }

  /** A commit gives both caches the job's configuration if the counter still has its number, and else nothing. */
  lemma CommitSaid(st: World, j: nat)
    requires Enabled(st, Commit(j))
    ensures var s, t := st.shell, Step(st, Commit(j)).shell;
            && t.cache == (if s.jobs[j].gen == s.gen then Some(s.jobs[j].cfg) else s.cache)
            && t.bare == (if s.jobs[j].gen == s.gen then Some(s.jobs[j].cfg) else s.bare)
            && t.jobs[j].stage == Finished && t == s.(cache := t.cache, bare := t.bare, jobs := s.jobs[j := t.jobs[j]])
  {
  }

  /** The colours of `c` that a job's palette improves on. */
  predicate Recolours(job: Palette, before: Option<Config>, after: Option<Config>) {
    && before.Some? == after.Some?
    && (before.Some? ==>
          && after.value.settings == before.value.settings
          && after.value.palette.matugen == (if job.matugen.ok then job.matugen else before.value.palette.matugen)
          && after.value.palette.native == (if job.native.ok then job.native else before.value.palette.native))
  }

  /** A superseded job lends its good colours to both caches, if the live one shows its wallpaper. */
  lemma AdoptSaid(st: World, j: nat)
    requires Enabled(st, Adopt(j))
    ensures var s, t, job := st.shell, Step(st, Adopt(j)).shell, st.shell.jobs[j];
            && (if s.cache.Some? && s.cache.value.settings.wallpaper == job.cfg.settings.wallpaper
                then Recolours(job.cfg.palette, s.cache, t.cache) && Recolours(job.cfg.palette, s.bare, t.bare)
                else t.cache == s.cache && t.bare == s.bare)
            && t.gen == s.gen && |t.jobs| == |s.jobs| && t.disk == s.disk
  {
  }
}
