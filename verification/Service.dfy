/** The configuration service as the program runs it: four fields, and tables on the
    heap that are cloned before they are changed. Each operation is proved to be the
    step of the machine in Overlay. */
module Service {
  import opened Options
  import opened Codec
  import opened Staging
  import opened Tables
  import opened Layers
  import opened Overlay

  class Service {
    const app: App
    var cfg: Config
    var tree: Option<Tree>
    var staged: OrderedTable
    var configSet: OrderedTable

    ghost predicate Valid()
      reads this, staged, staged.Repr, configSet, configSet.Repr
    {
      app.sch.Section? && staged.Valid() && configSet.Valid()
    }

    ghost function Footprint(): set<object>
      reads this, staged, configSet
    {
      {this} + staged.Repr + configSet.Repr
    }

    ghost function Now(): Live
      requires Valid()
      reads this, staged, staged.Repr, configSet, configSet.Repr
    {
      Live(cfg, tree, staged.View(), configSet.View())
    }

    /** Loads both files; one that fails counts as none. */
    constructor Load(app: App, main: Read, runtime: Read)
      requires app.sch.Section?
      ensures Valid() && fresh(staged.Repr) && fresh(configSet.Repr) && this.app == app
      ensures Now() == Overlay.Load(app, main, runtime)
    {
      var tree := TreeOf(main);
      var cfg, staged, failed := BuildLayers(app, tree, TreeOf(runtime));
      var configSet := ConfigLeaves(app, tree);
      this.app, this.cfg, this.tree, this.staged, this.configSet := app, cfg, tree, staged, configSet;
    }

    /** Publishes a new state; the tables that were in effect are left as they were. */
    method Publish(cfg: Config, staged: OrderedTable, tree: Option<Tree>)
      requires Valid() && staged.Valid()
      modifies this
      ensures Valid()
      ensures Now() == Overlay.Publish(app, State(cfg, old(staged.View()), false), tree)
    {
      var leaves := ConfigLeaves(app, tree);
      this.cfg, this.staged, this.tree, this.configSet := cfg, staged, tree, leaves;
    }

    /** The document with these overrides laid over it again. */
    method Rebuilt(overrides: OrderedTable) returns (cfg: Config, left: OrderedTable)
      requires Valid() && overrides.Valid()
      ensures left.Valid() && fresh(left.Repr)
      ensures
        var b := Build(app, tree, Some(ToPlain(app.fl, overrides.View())));
        cfg == b.cfg && left.View() == b.staged
    {
      var plain := overrides.Plain(app.fl);
      var failed: bool;
      cfg, left, failed := BuildLayers(app, tree, Some(plain));
    }

    /** Sets an override; a value that some setting rejects changes nothing. */
    method SetByPath(path: Path, value: Tree) returns (ok: bool)
      requires Valid() && path != []
      modifies this
      ensures Valid()
      ensures
        var r := Overlay.SetByPath(app, old(Now()), path, value);
        ok == r.Some? && Now() == if ok then r.value else old(Now())
    {
      var root := InsertPath(Dict(map[]), path, value);
      InsertFresh(path, value);
      var next := staged.Clone();
      var cfg: Config;
      ok, cfg := Override(next, root.value);
      if ok {
        Publish(cfg, next, tree);
      }
    }

    /** Lays a tree over the state with these overrides, staging what it sets. */
    method Override(next: OrderedTable, root: Tree) returns (ok: bool, cfg: Config)
      requires Valid() && next.Valid() && next.Repr !! Footprint()
      modifies next.Repr
      ensures Valid() && Now() == old(Now()) && next.Valid()
      ensures
        var rebuilt := Build(app, tree, Some(ToPlain(app.fl, old(next.View()))));
        State(cfg, next.View(), !ok) ==
          Lay(app.fl, RuntimeLayer, app.sch, State(rebuilt.cfg, old(next.View()), false), root)
    {
      var left: OrderedTable;
      cfg, left := Rebuilt(next);
      var layer := new LayerApply(app.fl, RuntimeLayer, cfg, next);
      ok := layer.ApplyContainer(app.sch, root, []);
      cfg := layer.cfg;
    }

    /** Drops the override of the one setting a path names. */
    method ResetByPath(path: Path) returns (result: ResetOutcome)
      requires Valid()
      modifies this
      ensures Valid()
      ensures
        match Overlay.ResetByPath(app, old(Now()), path)
        case NotReset(e) => result == Refused(e) && Now() == old(Now())
        case Reset(live, cleared) => result == Dropped(cleared) && Now() == live
    {
      var canonical := ClearRuntimePath(app.sch, path);
      if canonical.NotCleared? {
        return Refused(canonical.error);
      }
      var next, cleared := WithoutOverride(canonical.path);
      var cfg, left := Rebuilt(next);
      Publish(cfg, left, tree);
      return Dropped(cleared);
    }

    /** A copy of the overrides without the one at a path, and whether it was there. */
    method WithoutOverride(path: Path) returns (next: OrderedTable, cleared: bool)
      requires Valid() && path != []
      ensures next.Valid() && fresh(next.Repr)
      ensures next.View() == DeleteAt(staged.View(), path) && cleared == At(staged.View(), path).Some?
    {
      next := staged.Clone();
      cleared := next.StagedAt(path);
      next.DeleteStaged(path);
    }

    method ResetAllRuntime()
      requires Valid()
      modifies this
      ensures Valid() && Now() == ResetAll(app, old(Now()))
    {
      var cfg, left, _ := BuildLayers(app, tree, None);
      Publish(cfg, left, tree);
    }

    method ReloadMain(main: Read, runtime: Read)
      requires Valid()
      modifies this
      ensures Valid() && Now() == Overlay.ReloadMain(app, old(Now()), main, runtime)
    {
      if main.Parsed? {
        var cfg, next, _ := BuildLayers(app, TreeOf(main), TreeOf(runtime));
        Publish(cfg, next, TreeOf(main));
      }
    }

    method ReloadRuntime(runtime: Read)
      requires Valid()
      modifies this
      ensures Valid() && Now() == Overlay.ReloadRuntime(app, old(Now()), runtime)
    {
      if !runtime.Unreadable? {
        var cfg, next, _ := BuildLayers(app, tree, TreeOf(runtime));
        Publish(cfg, next, tree);
      }
    }
  }

  datatype ResetOutcome = Dropped(cleared: bool) | Refused(error: PathError)

  /** One layer's tree, if there is one, over a configuration, staging into a new table. */
  method ApplyLayer(app: App, kind: Kind, start: Config, tree: Option<Tree>)
    returns (cfg: Config, staged: OrderedTable, failed: bool)
    requires app.sch.Section?
    ensures staged.Valid() && fresh(staged.Repr)
    ensures State(cfg, staged.View(), failed) == LayTree(app, kind, State(start, NOTHING, false), tree)
  {
    staged := new OrderedTable();
    if tree.None? {
      return start, staged, false;
    }
    var layer := new LayerApply(app.fl, kind, start, staged);
    var ok := layer.ApplyContainer(app.sch, tree.value, []);
    return layer.cfg, staged, !ok;
  }

  /** The config tree then the runtime tree onto the defaults. What the config layer
      stages here nobody reads. */
  method BuildLayers(app: App, tree: Option<Tree>, runtime: Option<Tree>)
    returns (cfg: Config, staged: OrderedTable, failed: bool)
    requires app.sch.Section?
    ensures staged.Valid() && fresh(staged.Repr)
    ensures State(cfg, staged.View(), failed) == Build(app, tree, runtime)
  {
    var base, _, _ := ApplyLayer(app, ConfigLayer, app.defaults, tree);
    cfg, staged, failed := ApplyLayer(app, RuntimeLayer, base, runtime);
  }

  /** The leaves a config document sets. */
  method ConfigLeaves(app: App, tree: Option<Tree>) returns (leaves: OrderedTable)
    requires app.sch.Section?
    ensures leaves.Valid() && fresh(leaves.Repr) && leaves.View() == ConfigState(app, tree).staged
  {
    var _, staged, _ := ApplyLayer(app, ConfigLayer, app.defaults, tree);
    leaves := staged;
  }
}
