/**
  Two pieces of `line_profiler.autoprofile.autoprofile.run`: the `restore_dict` context manager,
  which snapshots a dictionary (`sys.modules`) on entry and puts the snapshot back into the same
  dictionary object on exit, and the check that a script run as a module has a module name.
 */
module AutoProfile {
  import opened Wrappers

  /** A Python dict, updated in place. */
  class PyDict<K(==), V> {
    var items: map<K, V>

    constructor (items: map<K, V>)
      ensures this.items == items
    {
      this.items := items;
    }

    /** `d[k] = v`. */
    method SetItem(k: K, v: V)
      modifies this
      ensures items == old(items)[k := v]
    {
      items := items[k := v];
    }

    /** `del d[k]`; a missing key raises `KeyError`, reported as `false`. */
    method DelItem(k: K) returns (found: bool)
      modifies this
      ensures found == (k in old(items))
      ensures items == old(items) - {k}
    {
      found := k in items;
      items := items - {k};
    }
  }

  /** The exceptions `restore_dict` and `run` raise. */
  datatype Error =
    | AssertionFailed     // `assert self.copy is None` in `__enter__`
    | TypeError           // `self.d.update(None)` in an `__exit__` without a matching `__enter__`
    | ModuleNotFound      // `run(..., as_module=True)` on a script without a module name

  /** `restore_dict(d, target)`. */
  class RestoreDict<K(==), V, T> {
    const d: PyDict<K, V>
    const target: T
    /** `copy`: the snapshot taken by `__enter__`, or `None` outside the block. */
    var copy: Option<map<K, V>>

    constructor (d: PyDict<K, V>, target: T)
      ensures this.d == d && this.target == target && copy == None
    {
      this.d := d;
      this.target := target;
      copy := None;
    }

    /**
      `__enter__`: refuses to be entered twice without an exit; otherwise snapshots the dict and
      returns `target` unchanged.
     */
    method Enter() returns (r: Result<T, Error>)
      modifies this
      ensures old(copy).Some? ==> r == Failure(AssertionFailed) && copy == old(copy)
      ensures old(copy).None? ==> r == Success(target) && copy == Some(d.items)
    {
      if copy.Some? {
        return Failure(AssertionFailed);
      }
      copy := Some(d.items);
      return Success(target);
    }

    /**
      `__exit__`: `d.clear()` then `d.update(copy)`, so the dict holds exactly the snapshot
      (keys added in the block are gone, removed or overwritten ones are back) and `copy` is
      reset so that the object can be entered again. Without a snapshot, `update(None)` raises
      after the dict has already been cleared.
     */
    method Exit() returns (r: Result<(), Error>)
      modifies this, d
      ensures old(copy).Some? ==> r.Success? && d.items == old(copy).value && copy == None
      ensures old(copy).None? ==> r == Failure(TypeError) && d.items == map[] && copy == None
    {
      d.items := map[];
      if copy.None? {
        return Failure(TypeError);
      }
      d.items := copy.value;
      copy := None;
      return Success(());
    }
  }

  /**
    The as-module check at the top of `run`: with `as_module` set, the script path must map to a
    module name (`modpath_to_modname`, given as `modname`), and a missing or empty one raises
    `ModuleNotFoundError` before anything is compiled or executed. Returns the module name used,
    if any.
   */
  function ModuleNameFor(scriptFile: string, asModule: bool, modname: string -> Option<string>)
    : (r: Result<Option<string>, Error>)
    ensures !asModule ==> r == Success(None)
    ensures asModule && r.Success? ==> r.value.Some? && r.value.value != "" && modname(scriptFile) == r.value
    ensures r.Failure? <==> asModule && (modname(scriptFile).None? || modname(scriptFile).value == "")
    ensures r.Failure? ==> r.error == ModuleNotFound
  {
    if !asModule then Success(None)
    else
      match modname(scriptFile)
      case None => Failure(ModuleNotFound)
      case Some(name) => if name == "" then Failure(ModuleNotFound) else Success(Some(name))
  }

  /**
    `with restore_dict(sys.modules, callback) as callback: ...`: entering, running a block that
    installs a new `__main__` and drops another entry, then exiting leaves `sys.modules` as it was,
    and the context can be entered again.
   */
  method RestoreDictExample(modules: PyDict<string, int>, mainModule: int)
    modifies modules
    ensures modules.items == old(modules.items)
  {
    var ctx := new RestoreDict(modules, "callback");
    var entered := ctx.Enter();
    assert entered == Success("callback");
    var again := ctx.Enter();
    assert again == Failure(AssertionFailed);
    modules.SetItem("__main__", mainModule);
    var _ := modules.DelItem("os");
    var exited := ctx.Exit();
    assert exited.Success?;
    var reentered := ctx.Enter();
    assert reentered.Success?;
  }
}
