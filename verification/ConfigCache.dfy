/**
 The shell's configuration cache. Two cached configurations, a generation counter and palette
 jobs on pool threads share one lock. A mutator bumps the counter before it takes the lock, so
 jobs can run between the two; a job compares its generation with the counter before it commits,
 once outside the lock and once inside.

 A configuration is split in two: the settings a user chooses, and the palette the generator makes.
 The generator also writes the chosen scheme and mode back in their normal spelling.
 */
module ConfigCache {
  import opened Wrappers

  /** A scheme or mode as the user wrote it, and its normal spelling, whatever the rule for that is. */
  datatype Name = Name(text: string, normal: string)

  datatype Settings = Settings(wallpaper: string, theming: bool, native: bool, scheme: Name, mode: Name,
                               dragged: string, rest: string)

  datatype Colors = Colors(shades: string, ok: bool)

  datatype Palette = Palette(matugen: Colors, native: Colors)

  datatype Config = Config(settings: Settings, palette: Palette)

  /** How far a palette job has come. `Passed` is between the two comparisons of the counter. */
  datatype Stage = Queued | Made | Passed | Superseded | Finished

  datatype Job = Job(gen: nat, cfg: Config, stage: Stage)

  /** What the lock protects, with the counter, the pool's jobs and the settings files. */
  datatype Shell = Shell(cache: Option<Config>, bare: Option<Config>, gen: nat,
                         preview: Config, previewing: bool, disk: Settings, jobs: seq<Job>)

  /** The writes that bump the counter before they take the lock. */
  datatype Write = Reset | Light | Apply(sc: Config) | Reload(skip: bool)

  // ---------------------------------------------------------------------------------------------
  // Spelling
  // ---------------------------------------------------------------------------------------------

  /** The normal spelling is its own normal spelling. */
  function Normal(name: Name): Name {
    Name(name.normal, name.normal)
  }

  /** The settings with scheme and mode in their normal spelling. */
  function Normalized(settings: Settings): Settings {
    settings.(scheme := Normal(settings.scheme), mode := Normal(settings.mode))
  }

  /** The same choices, however they are spelled. */
  predicate Same(a: Settings, b: Settings) {
    Normalized(a) == Normalized(b)
  }

  lemma NormalizedTwice(settings: Settings)
    ensures Normalized(Normalized(settings)) == Normalized(settings)
  {
  }

  /** What the generator makes of a configuration: a palette, and names respelled or left alone. */
  function Generated(base: Config, made: Palette, respelled: bool): Config {
    Config(if respelled then Normalized(base.settings) else base.settings, made)
  }

  // ---------------------------------------------------------------------------------------------
  // The operations, each one section under the lock
  // ---------------------------------------------------------------------------------------------

  /** Colours that came out well replace those of `dst`. */
  function Adopted(dst: Palette, src: Palette): Palette {
    dst.(matugen := if src.matugen.ok then src.matugen else dst.matugen,
         native := if src.native.ok then src.native else dst.native)
  }

  function Recolored(c: Option<Config>, src: Palette): Option<Config> {
    if c.Some? then Some(c.value.(palette := Adopted(c.value.palette, src))) else None
  }

  /** `cfg` with the good colours of the live cache, if there is one. */
  function Inheriting(cfg: Config, live: Option<Config>): Config {
    if live.Some? then cfg.(palette := Adopted(cfg.palette, live.value.palette)) else cfg
  }

  /** A load: the files' settings, respelled as they are read, and the palette that came with it. */
  function FromFiles(disk: Settings, loaded: Palette): Config {
    Config(Normalized(disk), loaded)
  }

  predicate Themed(c: Config) {
    c.settings.theming || c.settings.native
  }

  function Bumped(s: Shell): Shell {
    s.(gen := s.gen + 1)
  }

  function Enqueued(s: Shell, cfg: Config): Shell {
    s.(jobs := s.jobs + [Job(s.gen, cfg, Queued)])
  }

  /** The locked half of a write; `loaded` is the palette a load from disk came with. */
  function Written(s: Shell, w: Write, loaded: Palette): Shell {
    match w
    case Reset => s.(cache := None, bare := None, previewing := false)
    case Light =>
      var reread := Inheriting(FromFiles(s.disk, loaded), s.cache);
      s.(cache := Some(reread), bare := Some(reread), previewing := false)
    case Apply(sc) =>
      var kept := Inheriting(sc, s.cache);
      s.(cache := Some(kept), bare := Some(kept), previewing := false)
    case Reload(skip) =>
      var cfg := FromFiles(s.disk, loaded);
      var t := s.(cache := Some(cfg), bare := None, previewing := false);
      if skip && Themed(cfg) then Enqueued(t, cfg) else t
  }

  function Snapped(s: Shell, loaded: Palette): Shell {
    if s.cache.Some? then s
    else if s.bare.Some? then
      var t := s.(cache := s.bare);
      if Themed(s.bare.value) then Enqueued(Bumped(t), s.bare.value) else t
    else
      var cfg := FromFiles(s.disk, loaded);
      Enqueued(Bumped(s.(cache := Some(cfg), bare := Some(cfg))), cfg)
  }

  function BareLoaded(s: Shell, loaded: Palette): Shell {
    if s.bare.Some? then s else s.(bare := Some(FromFiles(s.disk, loaded)))
  }

  /** Showing a drag preview and asking for a widget's type both load a missing cache. */
  function CacheLoaded(s: Shell, loaded: Palette): Shell {
    if s.cache.Some? then s else s.(cache := Some(FromFiles(s.disk, loaded)))
  }

  function Triggered(s: Shell): Shell {
    if s.bare.Some? then Enqueued(Bumped(s), s.bare.value) else s
  }

  /** The whole of applying a configuration: a palette the live cache could not lend is asked for. */
  function AppliedFromMemory(s: Shell, sc: Config, loaded: Palette): Shell {
    var lender, applied := s.cache, Written(Bumped(s), Apply(sc), loaded);
    var once := if sc.settings.theming && !(lender.Some? && lender.value.palette.matugen.ok)
                then Triggered(applied) else applied;
    if sc.settings.native && !(lender.Some? && lender.value.palette.native.ok) then Triggered(once) else once
  }

  function Restored(s: Shell, colors: Colors): Shell {
    var target := if s.cache.Some? then s.cache else s.bare;
    if target.None? then s
    else s.(cache := Some(target.value.(palette := target.value.palette.(matugen := colors))))
  }

  /** Everything the settings page can drag, palette included, taken from `ui`. */
  function DragMerged(base: Config, ui: Config): Config {
    ui.(settings := ui.settings.(rest := base.settings.rest))
  }

  function PreviewCleared(s: Shell): Shell {
    var t := s.(previewing := false);
    if s.previewing && s.cache.Some? then t.(cache := Some(DragMerged(s.cache.value, s.preview))) else t
  }

  /** A superseded job's colours go to the live caches, but only over the same wallpaper. */
  function AdoptedInto(s: Shell, cfg: Config): Shell {
    if s.cache.Some? && s.cache.value.settings.wallpaper == cfg.settings.wallpaper
    then s.(cache := Recolored(s.cache, cfg.palette), bare := Recolored(s.bare, cfg.palette))
    else s
  }

  /** A job's commit, with its second look at the counter. */
  function Committed(s: Shell, gen: nat, cfg: Config): Shell {
    if gen == s.gen then s.(cache := Some(cfg), bare := Some(cfg)) else s
  }

  // ---------------------------------------------------------------------------------------------
  // The globals and the functions that change them
  // ---------------------------------------------------------------------------------------------

  class Globals {
    var cache: Option<Config>
    var bare: Option<Config>
    var gen: nat
    var preview: Config
    var previewing: bool
    var disk: Settings
    var jobs: seq<Job>

    function State(): Shell
      reads this
    {
      Shell(cache, bare, gen, preview, previewing, disk, jobs)
    }

    method Invalidate()
      modifies this
      ensures forall p :: State() == Written(Bumped(old(State())), Reset, p)
    {
      gen := gen + 1;
      cache, bare, previewing := None, None, false;
    }

    method InvalidateLight(loaded: Palette)
      modifies this
      ensures State() == Written(Bumped(old(State())), Light, loaded)
    {
      gen := gen + 1;
      var saved := cache;
      cache := None;
      var reread := FromFiles(disk, loaded);
      if saved.Some? && saved.value.palette.matugen.ok {
        reread := reread.(palette := reread.palette.(matugen := saved.value.palette.matugen));
      }
      if saved.Some? && saved.value.palette.native.ok {
        reread := reread.(palette := reread.palette.(native := saved.value.palette.native));
      }
      bare := Some(reread);
      cache := bare;
      previewing := false;
    }

    /** The applied hook is not called; a palette the live cache could not lend is asked for. */
    method ApplyFromMemory(sc: Config, loaded: Palette)
      modifies this
      ensures State() == AppliedFromMemory(old(State()), sc, loaded)
    {
      gen := gen + 1;
      var kept, needMatugen, needNative := sc, false, false;
      if cache.Some? && cache.value.palette.matugen.ok {
        kept := kept.(palette := kept.palette.(matugen := cache.value.palette.matugen));
      } else if sc.settings.theming {
        needMatugen := true;
      }
      if cache.Some? && cache.value.palette.native.ok {
        kept := kept.(palette := kept.palette.(native := cache.value.palette.native));
      } else if sc.settings.native {
        needNative := true;
      }
      cache := Some(kept);
      bare := cache;
      previewing := false;
      if needMatugen {
        TriggerAsyncMatugen();
      }
      if needNative {
        TriggerAsyncMatugen();
      }
    }

    method ReloadFromDiskNow(skip: bool, loaded: Palette)
      modifies this
      ensures State() == Written(Bumped(old(State())), Reload(skip), loaded)
    {
      gen := gen + 1;
      previewing := false;
      cache := Some(FromFiles(disk, loaded));
      bare := None;
      if skip && (cache.value.settings.theming || cache.value.settings.native) {
        jobs := jobs + [Job(gen, cache.value, Queued)];
      }
    }

    method RestoreMatugenPalette(colors: Colors)
      modifies this
      ensures State() == Restored(old(State()), colors)
    {
      var target := cache;
      if target.None? {
        if bare.None? {
          return;
        }
        target := bare;
      }
      cache := Some(target.value.(palette := target.value.palette.(matugen := colors)));
    }

    /** The caller sees the drag preview instead of the cache while one is shown. */
    method Snapshot(loaded: Palette) returns (seen: Config)
      modifies this
      ensures State() == Snapped(old(State()), loaded)
      ensures cache.Some?
      ensures seen == if old(cache).Some? && previewing then preview else cache.value
    {
      if cache.Some? {
        return if previewing then preview else cache.value;
      }
      if bare.Some? {
        cache := bare;
        if cache.value.settings.theming || cache.value.settings.native {
          gen := gen + 1;
          jobs := jobs + [Job(gen, bare.value, Queued)];
        }
        return cache.value;
      }
      bare := Some(FromFiles(disk, loaded));
      cache := bare;
      gen := gen + 1;
      jobs := jobs + [Job(gen, bare.value, Queued)];
      return cache.value;
    }

    method SnapshotSkipMatugen(loaded: Palette) returns (seen: Config)
      modifies this
      ensures State() == BareLoaded(old(State()), loaded)
      ensures bare == Some(seen)
    {
      if bare.None? {
        bare := Some(FromFiles(disk, loaded));
      }
      seen := bare.value;
    }

    method TriggerAsyncMatugen()
      modifies this
      ensures State() == Triggered(old(State()))
    {
      if bare.None? {
        return;
      }
      gen := gen + 1;
      jobs := jobs + [Job(gen, bare.value, Queued)];
    }

    /** `patched` is what the caller's patch makes of the merged configuration. */
    method SetSettingsDragPreview(ui: Config, patched: Config -> Config, loaded: Palette)
      modifies this
      ensures var t := CacheLoaded(old(State()), loaded);
              State() == t.(preview := patched(DragMerged(t.cache.value, ui)), previewing := true)
    {
      if cache.None? {
        cache := Some(FromFiles(disk, loaded));
      }
      var merged := ui.(settings := ui.settings.(rest := cache.value.settings.rest));
      preview := patched(merged);
      previewing := true;
    }

    method ClearSettingsDragPreview()
      modifies this
      ensures State() == PreviewCleared(old(State()))
    {
      if previewing && cache.Some? {
        cache := Some(preview.(settings := preview.settings.(rest := cache.value.settings.rest)));
      }
      previewing := false;
    }

    /** The lock section of a job found superseded. */
    method AdoptSuperseded(cfg: Config)
      modifies this`cache, this`bare
      ensures State() == AdoptedInto(old(State()), cfg)
    {
      if cache.Some? && cache.value.settings.wallpaper == cfg.settings.wallpaper {
        cache := Some(cache.value.(palette := Adopted(cache.value.palette, cfg.palette)));
        if bare.Some? {
          bare := Some(bare.value.(palette := Adopted(bare.value.palette, cfg.palette)));
        }
      }
    }

    /** The lock section of a job that passed its first look at the counter: it looks again. */
    method CommitIfCurrent(cfg: Config, jobGen: nat)
      modifies this`cache, this`bare
      ensures State() == Committed(old(State()), jobGen, cfg)
    {
      if jobGen != gen {
        return;
      }
      cache := Some(cfg);
      bare := cache;
    }

    /** A palette job that nothing interrupts. */
    method AsyncMatugenUpdate(base: Config, jobGen: nat, made: Palette, respelled: bool)
      modifies this`cache, this`bare
      ensures var cfg := Generated(base, made, respelled);
              State() == if jobGen == old(gen) then Committed(old(State()), jobGen, cfg)
                         else AdoptedInto(old(State()), cfg)
    {
      hide Normalized;
      var cfg := Generated(base, made, respelled);
      if jobGen != gen {
        AdoptSuperseded(cfg);
        return;
      }
      CommitIfCurrent(cfg, jobGen);
    }
  }
}
