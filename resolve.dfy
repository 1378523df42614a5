/**
  `line_profiler.autoprofile.eager_preimports.resolve_profiling_targets`: every dotted path to
  profile, in sorted order, is split into a module and a target; the targets are grouped by
  module, packages marked for recursion contribute their submodules, and paths whose module
  cannot be found are reported. Module lookups are the oracle `importable`; the submodules of
  a package (`walk_packages_static` or `walk_packages_import_sys`) are the oracle `walk`.
 */
module ResolveTargets {
  import opened Wrappers
  import opened Strings
  import opened DottedPaths

  /** Strictly increasing in Python's string order. */
  predicate StrictlySorted(xs: seq<string>)
  {
    forall i, j :: 0 <= i < j < |xs| ==> StrLt(xs[i], xs[j])
  }

  /** Python's string order is a strict total order. */
  lemma StrLtOrder()
    ensures forall a, b :: a == b || StrLt(a, b) || StrLt(b, a)
    ensures forall a, b, c :: StrLt(a, b) && StrLt(b, c) ==> StrLt(a, c)
    ensures forall a :: !StrLt(a, a)
  {
    forall a, b
      ensures a == b || StrLt(a, b) || StrLt(b, a)
    {
      StrLtTotal(a, b);
    }
    forall a, b, c | StrLt(a, b) && StrLt(b, c)
      ensures StrLt(a, c)
    {
      StrLtTransitive(a, b, c);
    }
    forall a
      ensures !StrLt(a, a)
    {
      StrLtIrreflexive(a);
    }
  }

  /** A least element of a non-empty set of strings. */
  lemma {:induction false} LeastElement(s: set<string>) returns (m: string)
    requires s != {}
    ensures m in s && forall y :: y in s ==> !StrLt(y, m)
    decreases s
  {
    var x :| x in s;
    StrLtIrreflexive(x);
    if s - {x} == {} {
      m := x;
      forall y | y in s
        ensures !StrLt(y, x)
      {
        assert y !in s - {x};
      }
    } else {
      var least := LeastElement(s - {x});
      if StrLt(x, least) {
        m := x;
        forall y | y in s
          ensures !StrLt(y, x)
        {
          if y != x && StrLt(y, x) {
            assert y in s - {x};
            StrLtTransitive(y, x, least);
          }
        }
      } else {
        m := least;
        forall y | y in s
          ensures !StrLt(y, least)
        {
          assert y == x || y in s - {x};
        }
      }
    }
  }

  /** A non-empty set of strings has a least element. */
  lemma MinExists(s: set<string>)
    requires s != {}
    ensures exists m :: m in s && forall y :: y in s ==> !StrLt(y, m)
  {
    var m := LeastElement(s);
  }

  /** `sorted(s)`: the elements of `s`, smallest first. */
  function Sorted(s: set<string>): (r: seq<string>)
    ensures StrictlySorted(r) && |r| == |s|
    ensures forall x :: x in r <==> x in s
    decreases s
  {
    if s == {} then []
    else
      MinExists(s);
      StrLtOrder();
      var m :| m in s && forall y :: y in s ==> !StrLt(y, m);
      [m] + Sorted(s - {m})
  }

  /** `recurse`: a collection of paths, or a flag meaning "all of `dotted_paths`" or "none". */
  datatype Recurse = Flag(on: bool) | Paths(paths: set<string>)

  /** The `ResolvedResult` named tuple; `targets` maps a module to its attribute targets (`None`: the module itself). */
  datatype Resolved = Resolved(
    targets: map<string, set<Option<string>>>, indirect: set<string>, unresolved: seq<string>)

  datatype ResolveError = TypeError

  /** The paths to recurse into. */
  function RecurseSet(dottedPaths: set<string>, recurse: Recurse): set<string>
  {
    match recurse
    case Paths(paths) => paths
    case Flag(on) => if on then dottedPaths else {}
  }

  /** `targets.setdefault(module, set()).add(target)`. */
  function AddTarget(targets: map<string, set<Option<string>>>, moduleName: string, target: Option<string>)
    : map<string, set<Option<string>>>
  {
    targets[moduleName := (if moduleName in targets then targets[moduleName] else {}) + {target}]
  }

  /** The inner loop over the submodules of a package: each is a whole-module target and indirect. */
  function AddSubmodules(st: Resolved, subs: seq<string>): Resolved
    decreases |subs|
  {
    if subs == [] then st
    else
      var s := AddSubmodules(st, subs[..|subs| - 1]);
      var sub := subs[|subs| - 1];
      Resolved(AddTarget(s.targets, sub, None), s.indirect + {sub}, s.unresolved)
  }

  /** One iteration of the loop over the sorted paths. */
  function StepPath(st: Resolved, path: string, recurseSet: set<string>,
                    importable: string -> bool, walk: string -> seq<string>): Result<Resolved, ResolveError>
  {
    match SplitSpec(path, importable)
    case Failure(TypeError) => Failure(ResolveError.TypeError)
    case Failure(ModuleNotFound(_)) => Success(st.(unresolved := st.unresolved + [path]))
    case Success((moduleName, target)) =>
      var added := st.(targets := AddTarget(st.targets, moduleName, target));
      if path in recurseSet && target.None? then Success(AddSubmodules(added, walk(path)))
      else Success(added)
  }

  /** The loop over `order`, from the empty result; the first `TypeError` ends it. */
  function ResolveFold(order: seq<string>, recurseSet: set<string>,
                       importable: string -> bool, walk: string -> seq<string>): Result<Resolved, ResolveError>
    decreases |order|
  {
    if order == [] then Success(Resolved(map[], {}, []))
    else
      match ResolveFold(order[..|order| - 1], recurseSet, importable, walk)
      case Failure(e) => Failure(e)
      case Success(st) => StepPath(st, order[|order| - 1], recurseSet, importable, walk)
  }

  /** The paths considered: `dotted_paths | recurse`. */
  function AllPaths(dottedPaths: set<string>, recurse: Recurse): set<string>
  {
    dottedPaths + RecurseSet(dottedPaths, recurse)
  }

  /**
    The outcome of `resolve_profiling_targets(dotted_paths, recurse=recurse)`: on success the
    unresolved paths are listed in sorted order, and every indirect module is a whole-module
    target that was not asked for directly.
   */
  function ResolveSpec(dottedPaths: set<string>, recurse: Recurse,
                       importable: string -> bool, walk: string -> seq<string>): (r: Result<Resolved, ResolveError>)
    ensures r.Success? ==>
      && StrictlySorted(r.value.unresolved)
      && forall s :: s in r.value.indirect ==>
           s !in AllPaths(dottedPaths, recurse) && s in r.value.targets && None in r.value.targets[s]
  {
    var all := AllPaths(dottedPaths, recurse);
    var order := Sorted(all);
    match ResolveFold(order, RecurseSet(dottedPaths, recurse), importable, walk)
    case Failure(e) => Failure(e)
    case Success(st) =>
      FoldGood(order, RecurseSet(dottedPaths, recurse), importable, walk);
      Success(st.(indirect := st.indirect - all))
  }

  /** The body of the loop of `resolve_profiling_targets` for one path. */
  method ResolvePath(st: Resolved, path: string, recurseSet: set<string>,
                     importable: string -> bool, walk: string -> seq<string>)
    returns (r: Result<Resolved, ResolveError>)
    ensures r == StepPath(st, path, recurseSet, importable, walk)
  {
    var split := SplitDottedPath(path, importable);
    match split {
      case Failure(TypeError) =>
        return Failure(ResolveError.TypeError);
      case Failure(ModuleNotFound(_)) =>
        return Success(st.(unresolved := st.unresolved + [path]));
      case Success((moduleName, target)) =>
        var allTargets := AddTarget(st.targets, moduleName, target);
        var indirectSubmods := st.indirect;
        if path in recurseSet && target.None? {
          var subs := walk(path);
          for j := 0 to |subs|
            invariant AddSubmodules(st.(targets := AddTarget(st.targets, moduleName, target)), subs[..j])
                      == Resolved(allTargets, indirectSubmods, st.unresolved)
          {
            assert subs[..j + 1][..j] == subs[..j];
            allTargets := AddTarget(allTargets, subs[j], None);
            indirectSubmods := indirectSubmods + {subs[j]};
          }
          assert subs[..|subs|] == subs;
        }
        return Success(Resolved(allTargets, indirectSubmods, st.unresolved));
    }
  }

  /**
    `resolve_profiling_targets`: goes through the paths in sorted order, filling the targets,
    the indirect submodules and the unresolved paths; indirect submodules that were asked for
    directly are dropped at the end.
   */
  method ResolveProfilingTargets(dottedPaths: set<string>, recurse: Recurse,
                                 importable: string -> bool, walk: string -> seq<string>)
    returns (r: Result<Resolved, ResolveError>)
    ensures r == ResolveSpec(dottedPaths, recurse, importable, walk)
  {
    var recurseSet := RecurseSet(dottedPaths, recurse);
    var all := dottedPaths + recurseSet;
    var order := Sorted(all);
    r := ResolveInOrder(order, recurseSet, importable, walk);
    if r.Success? {
      r := Success(r.value.(indirect := r.value.indirect - all));
    }
  }

  /** The loop `for path in sorted(...)` of `resolve_profiling_targets`, from empty results. */
  method ResolveInOrder(order: seq<string>, recurseSet: set<string>,
                        importable: string -> bool, walk: string -> seq<string>)
    returns (r: Result<Resolved, ResolveError>)
    ensures r == ResolveFold(order, recurseSet, importable, walk)
  {
    var st := Resolved(map[], {}, []);
    for i := 0 to |order|
      invariant ResolveFold(order[..i], recurseSet, importable, walk) == Success(st)
    {
      FoldStep(order, i, recurseSet, importable, walk);
      var next := ResolvePath(st, order[i], recurseSet, importable, walk);
      if next.Failure? {
        FoldFailureSticks(order, i + 1, recurseSet, importable, walk);
        return next;
      }
      st := next.value;
    }
    FoldWhole(order, recurseSet, importable, walk);
    return Success(st);
  }

  /** The loop over the first `i + 1` paths is the loop over the first `i` and one more step. */
  lemma FoldStep(order: seq<string>, i: nat, recurseSet: set<string>,
                 importable: string -> bool, walk: string -> seq<string>)
    requires i < |order|
    ensures ResolveFold(order[..i], recurseSet, importable, walk).Failure?
            ==> ResolveFold(order[..i + 1], recurseSet, importable, walk)
                == ResolveFold(order[..i], recurseSet, importable, walk)
    ensures ResolveFold(order[..i], recurseSet, importable, walk).Success?
            ==> ResolveFold(order[..i + 1], recurseSet, importable, walk)
                == StepPath(ResolveFold(order[..i], recurseSet, importable, walk).value, order[i],
                            recurseSet, importable, walk)
  {
    assert order[..i + 1][..i] == order[..i];
  }

  /** The loop over all of `order`. */
  lemma FoldWhole(order: seq<string>, recurseSet: set<string>, importable: string -> bool, walk: string -> seq<string>)
    ensures ResolveFold(order[..|order|], recurseSet, importable, walk) == ResolveFold(order, recurseSet, importable, walk)
  {
    assert order[..|order|] == order;
  }

  /** Once the loop has failed it stays failed. */
  lemma {:induction false} FoldFailureSticks(order: seq<string>, k: nat, recurseSet: set<string>,
                                             importable: string -> bool, walk: string -> seq<string>)
    requires k <= |order|
    requires ResolveFold(order[..k], recurseSet, importable, walk).Failure?
    ensures ResolveFold(order, recurseSet, importable, walk)
            == ResolveFold(order[..k], recurseSet, importable, walk)
    decreases |order| - k
  {
    if k < |order| {
      assert order[..k + 1][..k] == order[..k];
      FoldFailureSticks(order, k + 1, recurseSet, importable, walk);
    } else {
      assert order[..k] == order;
    }
  }

  /** The loop fails exactly when one of the paths is not a dotted path. */
  lemma {:induction false} FoldFails(order: seq<string>, recurseSet: set<string>,
                                     importable: string -> bool, walk: string -> seq<string>)
    ensures ResolveFold(order, recurseSet, importable, walk).Failure?
            <==> exists i :: 0 <= i < |order| && !IsDotted(order[i])
    decreases |order|
  {
    if order != [] {
      var init := order[..|order| - 1];
      var path := order[|order| - 1];
      FoldFails(init, recurseSet, importable, walk);
      UndottedInOrder(order, init);
      match ResolveFold(init, recurseSet, importable, walk)
      case Failure(_) =>
      case Success(st) =>
        StepFails(st, path, recurseSet, importable, walk);
    }
  }

  /** A step fails exactly on a path that is not dotted. */
  lemma StepFails(st: Resolved, path: string, recurseSet: set<string>,
                  importable: string -> bool, walk: string -> seq<string>)
    ensures StepPath(st, path, recurseSet, importable, walk).Failure? <==> !IsDotted(path)
  {
    SplitTypeError(path, importable);
  }

  /** A path of `order` is not dotted exactly when one of its first paths or its last is not. */
  lemma UndottedInOrder(order: seq<string>, init: seq<string>)
    requires order != [] && init == order[..|order| - 1]
    ensures (exists i :: 0 <= i < |order| && !IsDotted(order[i]))
            <==> (exists i :: 0 <= i < |init| && !IsDotted(init[i])) || !IsDotted(order[|order| - 1])
  {
    if exists i :: 0 <= i < |order| && !IsDotted(order[i]) {
      var i :| 0 <= i < |order| && !IsDotted(order[i]);
      if i < |order| - 1 {
        assert init[i] == order[i];
      }
    }
    if exists i :: 0 <= i < |init| && !IsDotted(init[i]) {
      var i :| 0 <= i < |init| && !IsDotted(init[i]);
      assert init[i] == order[i];
    }
  }

  /** `path` has been dealt with in `st`: its target is recorded under its module, or it is unresolved. */
  predicate Accounted(st: Resolved, path: string, importable: string -> bool)
  {
    match SplitSpec(path, importable)
    case Success((moduleName, target)) => moduleName in st.targets && target in st.targets[moduleName]
    case Failure(ModuleNotFound(_)) => path in st.unresolved
    case Failure(TypeError) => false
  }

  /** `st2` extends `st1`: no target, indirect module or unresolved path is ever dropped. */
  predicate Extends(st1: Resolved, st2: Resolved)
  {
    (forall m :: m in st1.targets ==> m in st2.targets && st1.targets[m] <= st2.targets[m])
    && st1.indirect <= st2.indirect
    && st1.unresolved <= st2.unresolved
  }

  /** Every module maps to a non-empty set of targets. */
  predicate TargetsNonEmpty(st: Resolved)
  {
    forall m :: m in st.targets ==> st.targets[m] != {}
  }

  /** Every indirect module is recorded as a whole-module target. */
  predicate IndirectWhole(st: Resolved)
  {
    forall s :: s in st.indirect ==> s in st.targets && None in st.targets[s]
  }

  /** The unresolved paths come from `order` and their modules cannot be found. */
  predicate UnresolvedFrom(st: Resolved, order: seq<string>, importable: string -> bool)
  {
    forall i :: 0 <= i < |st.unresolved| ==>
      st.unresolved[i] in order && SplitSpec(st.unresolved[i], importable).Failure?
      && SplitSpec(st.unresolved[i], importable).error.ModuleNotFound?
  }

  /** Every path of `order` is accounted for. */
  predicate AllAccounted(st: Resolved, order: seq<string>, importable: string -> bool)
  {
    forall i :: 0 <= i < |order| ==> Accounted(st, order[i], importable)
  }

  /** What holds of the result after each iteration of the loop over a sorted `order`. */
  predicate Good(st: Resolved, order: seq<string>, importable: string -> bool)
  {
    TargetsNonEmpty(st) && IndirectWhole(st) && UnresolvedFrom(st, order, importable)
    && StrictlySorted(st.unresolved) && AllAccounted(st, order, importable)
  }

  /** Adding submodules only extends the result, and keeps its targets non-empty and its indirect modules whole. */
  lemma {:induction false} AddSubmodulesExtends(st: Resolved, subs: seq<string>)
    ensures Extends(st, AddSubmodules(st, subs))
    ensures AddSubmodules(st, subs).unresolved == st.unresolved
    ensures TargetsNonEmpty(st) ==> TargetsNonEmpty(AddSubmodules(st, subs))
    ensures IndirectWhole(st) ==> IndirectWhole(AddSubmodules(st, subs))
    decreases |subs|
  {
    if subs != [] {
      AddSubmodulesExtends(st, subs[..|subs| - 1]);
    }
  }

  /** Accounting for a path survives any extension of the result. */
  lemma AccountedExtends(st1: Resolved, st2: Resolved, path: string, importable: string -> bool)
    requires Extends(st1, st2) && Accounted(st1, path, importable)
    ensures Accounted(st2, path, importable)
  {
    match SplitSpec(path, importable)
    case Success((moduleName, target)) =>
    case Failure(ModuleNotFound(_)) =>
      var i :| 0 <= i < |st1.unresolved| && st1.unresolved[i] == path;
      assert st2.unresolved[i] == path;
    case Failure(TypeError) =>
  }

  /** The paths accounted for before an iteration stay accounted for after it. */
  lemma AccountedPrefix(st: Resolved, st2: Resolved, order: seq<string>, importable: string -> bool)
    requires |order| >= 1 && Extends(st, st2)
    requires AllAccounted(st, order[..|order| - 1], importable)
    requires Accounted(st2, order[|order| - 1], importable)
    ensures AllAccounted(st2, order, importable)
  {
    forall i | 0 <= i < |order|
      ensures Accounted(st2, order[i], importable)
    {
      if i < |order| - 1 {
        assert order[i] == order[..|order| - 1][i];
        AccountedExtends(st, st2, order[i], importable);
      }
    }
  }

  /** An iteration whose module cannot be found keeps `Good`. */
  lemma StepNotFound(st: Resolved, order: seq<string>, importable: string -> bool)
    requires |order| >= 1 && StrictlySorted(order)
    requires Good(st, order[..|order| - 1], importable)
    requires SplitSpec(order[|order| - 1], importable).Failure?
    requires SplitSpec(order[|order| - 1], importable).error.ModuleNotFound?
    ensures Good(st.(unresolved := st.unresolved + [order[|order| - 1]]), order, importable)
  {
    var init := order[..|order| - 1];
    var path := order[|order| - 1];
    var st2 := st.(unresolved := st.unresolved + [path]);
    assert Extends(st, st2);
    forall i | 0 <= i < |st.unresolved|
      ensures st.unresolved[i] in init && StrLt(st.unresolved[i], path)
    {
      var j :| 0 <= j < |init| && init[j] == st.unresolved[i];
      assert order[j] == init[j];
    }
    assert st2.unresolved[|st.unresolved|] == path;
    AccountedPrefix(st, st2, order, importable);
  }

  /** An iteration that records a target keeps `Good`. */
  lemma StepFound(st: Resolved, order: seq<string>, recurseSet: set<string>,
                  importable: string -> bool, walk: string -> seq<string>)
    requires |order| >= 1 && StrictlySorted(order)
    requires Good(st, order[..|order| - 1], importable)
    requires SplitSpec(order[|order| - 1], importable).Success?
    ensures Good(StepPath(st, order[|order| - 1], recurseSet, importable, walk).value, order, importable)
  {
    var init := order[..|order| - 1];
    var path := order[|order| - 1];
    FoundStepState(st, path, recurseSet, importable, walk);
    var st2 := StepPath(st, path, recurseSet, importable, walk).value;
    AccountedPrefix(st, st2, order, importable);
    forall i | 0 <= i < |st2.unresolved|
      ensures st2.unresolved[i] in order
    {
      var j :| 0 <= j < |init| && init[j] == st.unresolved[i];
      assert order[j] == init[j];
    }
  }

  /** A path that splits adds its target (and perhaps submodules) and leaves the unresolved paths alone. */
  lemma FoundStepState(st: Resolved, path: string, recurseSet: set<string>,
                       importable: string -> bool, walk: string -> seq<string>)
    requires SplitSpec(path, importable).Success?
    requires TargetsNonEmpty(st) && IndirectWhole(st)
    ensures var st2 := StepPath(st, path, recurseSet, importable, walk).value;
      Extends(st, st2) && st2.unresolved == st.unresolved && Accounted(st2, path, importable)
      && TargetsNonEmpty(st2) && IndirectWhole(st2)
  {
    var (moduleName, target) := SplitSpec(path, importable).value;
    var added := st.(targets := AddTarget(st.targets, moduleName, target));
    assert Extends(st, added);
    AddSubmodulesExtends(added, walk(path));
    var st2 := StepPath(st, path, recurseSet, importable, walk).value;
    assert Extends(added, st2) && st2.unresolved == st.unresolved;
    assert Accounted(st2, path, importable);
  }

  /** One iteration keeps `Good`. */
  lemma StepGood(st: Resolved, order: seq<string>, recurseSet: set<string>,
                 importable: string -> bool, walk: string -> seq<string>)
    requires |order| >= 1 && StrictlySorted(order)
    requires Good(st, order[..|order| - 1], importable)
    requires StepPath(st, order[|order| - 1], recurseSet, importable, walk).Success?
    ensures Good(StepPath(st, order[|order| - 1], recurseSet, importable, walk).value, order, importable)
  {
    if SplitSpec(order[|order| - 1], importable).Success? {
      StepFound(st, order, recurseSet, importable, walk);
    } else {
      StepNotFound(st, order, importable);
    }
  }

  /** `Good` holds after the whole loop over a sorted `order`. */
  lemma {:induction false} FoldGood(order: seq<string>, recurseSet: set<string>,
                                    importable: string -> bool, walk: string -> seq<string>)
    requires StrictlySorted(order)
    requires ResolveFold(order, recurseSet, importable, walk).Success?
    ensures Good(ResolveFold(order, recurseSet, importable, walk).value, order, importable)
    decreases |order|
  {
    if order != [] {
      var init := order[..|order| - 1];
      FoldGood(init, recurseSet, importable, walk);
      var st := ResolveFold(init, recurseSet, importable, walk).value;
      StepGood(st, order, recurseSet, importable, walk);
    }
  }

  /** `path` is recursed into: it is marked for recursion and resolves to the whole module `path`. */
  predicate WalksInto(path: string, recurseSet: set<string>, importable: string -> bool)
  {
    path in recurseSet && SplitSpec(path, importable) == Success((path, None))
  }

  /** The `(module, target)` pairs the paths of `order` split into. */
  function DirectOf(order: seq<string>, importable: string -> bool): set<(string, Option<string>)>
    decreases |order|
  {
    if order == [] then {}
    else
      var path := order[|order| - 1];
      DirectOf(order[..|order| - 1], importable)
      + (if SplitSpec(path, importable).Success? then {SplitSpec(path, importable).value} else {})
  }

  /** The submodules found by walking the packages of `order` that are recursed into. */
  function WalkedOf(order: seq<string>, recurseSet: set<string>, importable: string -> bool,
                    walk: string -> seq<string>): set<string>
    decreases |order|
  {
    if order == [] then {}
    else
      var path := order[|order| - 1];
      WalkedOf(order[..|order| - 1], recurseSet, importable, walk)
      + (if WalksInto(path, recurseSet, importable) then set s | s in walk(path) else {})
  }

  /** A pair is in `DirectOf(order)` exactly when some path of `order` splits into it. */
  lemma {:induction false} DirectOfIs(order: seq<string>, importable: string -> bool, x: (string, Option<string>))
    ensures x in DirectOf(order, importable) <==> exists p :: p in order && SplitSpec(p, importable) == Success(x)
    decreases |order|
  {
    if order != [] {
      var init := order[..|order| - 1];
      var path := order[|order| - 1];
      DirectOfIs(init, importable, x);
      assert order == init + [path];
      if exists p :: p in order && SplitSpec(p, importable) == Success(x) {
        var p :| p in order && SplitSpec(p, importable) == Success(x);
        assert p == path || p in init;
      }
    }
  }

  /** A name is in `WalkedOf(order, ...)` exactly when the walk of a recursed-into path of `order` yields it. */
  lemma {:induction false} WalkedOfIs(order: seq<string>, recurseSet: set<string>, importable: string -> bool,
                                      walk: string -> seq<string>, s: string)
    ensures s in WalkedOf(order, recurseSet, importable, walk)
            <==> exists p :: p in order && WalksInto(p, recurseSet, importable) && s in walk(p)
    decreases |order|
  {
    if order != [] {
      var init := order[..|order| - 1];
      var path := order[|order| - 1];
      WalkedOfIs(init, recurseSet, importable, walk, s);
      assert order == init + [path];
      if exists p :: p in order && WalksInto(p, recurseSet, importable) && s in walk(p) {
        var p :| p in order && WalksInto(p, recurseSet, importable) && s in walk(p);
        assert p == path || p in init;
      }
    }
  }

  /**
    Everything in `st` comes from the paths of `order`: each target is the split of one of them,
    or `None` under a walked submodule, and each indirect module is a walked submodule.
   */
  predicate FromInput(st: Resolved, order: seq<string>, recurseSet: set<string>,
                      importable: string -> bool, walk: string -> seq<string>)
  {
    (forall m, t :: m in st.targets && t in st.targets[m] ==>
       (m, t) in DirectOf(order, importable)
       || (t.None? && m in WalkedOf(order, recurseSet, importable, walk)))
    && (forall s :: s in st.indirect ==> s in WalkedOf(order, recurseSet, importable, walk))
  }

  /** Adding submodules adds only whole-module targets and indirect entries for those submodules. */
  lemma {:induction false} AddSubmodulesOrigin(st: Resolved, subs: seq<string>)
    ensures var r := AddSubmodules(st, subs);
      (forall m, t :: m in r.targets && t in r.targets[m] ==>
         (m in st.targets && t in st.targets[m]) || (t.None? && m in subs))
      && (forall s :: s in r.indirect ==> s in st.indirect || s in subs)
    decreases |subs|
  {
    if subs != [] {
      var init := subs[..|subs| - 1];
      AddSubmodulesOrigin(st, init);
      assert forall x :: x in init ==> x in subs;
    }
  }

  /** Adding the pair the last path splits into keeps every target accounted for by the input. */
  lemma AddedFromInput(st: Resolved, order: seq<string>, recurseSet: set<string>,
                       importable: string -> bool, walk: string -> seq<string>,
                       moduleName: string, target: Option<string>)
    requires |order| >= 1
    requires FromInput(st, order[..|order| - 1], recurseSet, importable, walk)
    requires SplitSpec(order[|order| - 1], importable) == Success((moduleName, target))
    ensures FromInput(st.(targets := AddTarget(st.targets, moduleName, target)), order, recurseSet, importable, walk)
  {
    OrderGrows(order, recurseSet, importable, walk);
    assert (moduleName, target) in DirectOf(order, importable);
  }

  /** One iteration keeps `FromInput`. */
  lemma StepFromInput(st: Resolved, order: seq<string>, recurseSet: set<string>,
                      importable: string -> bool, walk: string -> seq<string>)
    requires |order| >= 1
    requires FromInput(st, order[..|order| - 1], recurseSet, importable, walk)
    requires StepPath(st, order[|order| - 1], recurseSet, importable, walk).Success?
    ensures FromInput(StepPath(st, order[|order| - 1], recurseSet, importable, walk).value,
                      order, recurseSet, importable, walk)
  {
    var path := order[|order| - 1];
    match SplitSpec(path, importable)
    case Failure(_) =>
      OrderGrows(order, recurseSet, importable, walk);
      assert StepPath(st, path, recurseSet, importable, walk).value == st.(unresolved := st.unresolved + [path]);
    case Success((moduleName, target)) =>
      var added := st.(targets := AddTarget(st.targets, moduleName, target));
      AddedFromInput(st, order, recurseSet, importable, walk, moduleName, target);
      if path in recurseSet && target.None? {
        assert StepPath(st, path, recurseSet, importable, walk).value == AddSubmodules(added, walk(path));
        WalkedFromInput(added, order, recurseSet, importable, walk);
      } else {
        assert StepPath(st, path, recurseSet, importable, walk).value == added;
      }
  }

  /** What the input accounts for only grows with the input. */
  lemma OrderGrows(order: seq<string>, recurseSet: set<string>, importable: string -> bool, walk: string -> seq<string>)
    requires |order| >= 1
    ensures DirectOf(order[..|order| - 1], importable) <= DirectOf(order, importable)
    ensures WalkedOf(order[..|order| - 1], recurseSet, importable, walk) <= WalkedOf(order, recurseSet, importable, walk)
  {
  }

  /** Walking a package the last path names whole adds only submodules the input accounts for. */
  lemma WalkedFromInput(added: Resolved, order: seq<string>, recurseSet: set<string>,
                        importable: string -> bool, walk: string -> seq<string>)
    requires |order| >= 1 && order[|order| - 1] in recurseSet
    requires SplitSpec(order[|order| - 1], importable).Success?
    requires SplitSpec(order[|order| - 1], importable).value.1.None?
    requires FromInput(added, order, recurseSet, importable, walk)
    ensures FromInput(AddSubmodules(added, walk(order[|order| - 1])), order, recurseSet, importable, walk)
  {
    var path := order[|order| - 1];
    SplitSuccess(path, importable);
    assert WalksInto(path, recurseSet, importable);
    assert forall x :: x in walk(path) ==> x in WalkedOf(order, recurseSet, importable, walk);
    AddSubmodulesOrigin(added, walk(path));
  }

  /** `FromInput` holds after the whole loop. */
  lemma {:induction false} FoldFromInput(order: seq<string>, recurseSet: set<string>,
                                         importable: string -> bool, walk: string -> seq<string>)
    requires ResolveFold(order, recurseSet, importable, walk).Success?
    ensures FromInput(ResolveFold(order, recurseSet, importable, walk).value, order, recurseSet, importable, walk)
    decreases |order|
  {
    if order != [] {
      var init := order[..|order| - 1];
      FoldFromInput(init, recurseSet, importable, walk);
      StepFromInput(ResolveFold(init, recurseSet, importable, walk).value, order, recurseSet, importable, walk);
    }
  }

  /** Every submodule walked so far is recorded as a whole-module target and as indirect. */
  predicate WalksRecorded(st: Resolved, order: seq<string>, recurseSet: set<string>,
                          importable: string -> bool, walk: string -> seq<string>)
  {
    forall s :: s in WalkedOf(order, recurseSet, importable, walk) ==>
      s in st.targets && None in st.targets[s] && s in st.indirect
  }

  /** The inner loop records each submodule it is given as a whole-module target and as indirect. */
  lemma {:induction false} AddSubmodulesRecords(st: Resolved, subs: seq<string>)
    ensures var r := AddSubmodules(st, subs);
      forall s :: s in subs ==> s in r.targets && None in r.targets[s] && s in r.indirect
    decreases |subs|
  {
    if subs != [] {
      var init := subs[..|subs| - 1];
      AddSubmodulesRecords(st, init);
      assert forall s :: s in subs ==> s in init || s == subs[|subs| - 1];
    }
  }

  /** A successful iteration only extends the result. */
  lemma StepExtends(st: Resolved, path: string, recurseSet: set<string>,
                    importable: string -> bool, walk: string -> seq<string>)
    requires StepPath(st, path, recurseSet, importable, walk).Success?
    ensures Extends(st, StepPath(st, path, recurseSet, importable, walk).value)
  {
    match SplitSpec(path, importable)
    case Failure(_) =>
    case Success((moduleName, target)) =>
      var added := st.(targets := AddTarget(st.targets, moduleName, target));
      assert Extends(st, added);
      AddSubmodulesExtends(added, walk(path));
  }

  /** One iteration keeps `WalksRecorded`, and records the submodules of a package it recurses into. */
  lemma StepWalksRecorded(st: Resolved, order: seq<string>, recurseSet: set<string>,
                          importable: string -> bool, walk: string -> seq<string>)
    requires |order| >= 1
    requires WalksRecorded(st, order[..|order| - 1], recurseSet, importable, walk)
    requires StepPath(st, order[|order| - 1], recurseSet, importable, walk).Success?
    ensures WalksRecorded(StepPath(st, order[|order| - 1], recurseSet, importable, walk).value,
                          order, recurseSet, importable, walk)
  {
    var init := order[..|order| - 1];
    var path := order[|order| - 1];
    var st2 := StepPath(st, path, recurseSet, importable, walk).value;
    StepExtends(st, path, recurseSet, importable, walk);
    if WalksInto(path, recurseSet, importable) {
      var added := st.(targets := AddTarget(st.targets, path, None));
      assert st2 == AddSubmodules(added, walk(path));
      AddSubmodulesRecords(added, walk(path));
    }
    forall s | s in WalkedOf(order, recurseSet, importable, walk)
      ensures s in st2.targets && None in st2.targets[s] && s in st2.indirect
    {
      if s !in WalkedOf(init, recurseSet, importable, walk) {
        assert WalksInto(path, recurseSet, importable) && s in walk(path);
      }
    }
  }

  /** `WalksRecorded` holds after the whole loop. */
  lemma {:induction false} FoldWalksRecorded(order: seq<string>, recurseSet: set<string>,
                                             importable: string -> bool, walk: string -> seq<string>)
    requires ResolveFold(order, recurseSet, importable, walk).Success?
    ensures WalksRecorded(ResolveFold(order, recurseSet, importable, walk).value, order, recurseSet, importable, walk)
    decreases |order|
  {
    if order != [] {
      var init := order[..|order| - 1];
      FoldWalksRecorded(init, recurseSet, importable, walk);
      StepWalksRecorded(ResolveFold(init, recurseSet, importable, walk).value, order, recurseSet, importable, walk);
    }
  }

  /**
    On success, recursing into a package records every submodule its walk yields as a
    whole-module target, and as indirect unless it was itself among the paths given.
   */
  lemma ResolveWalks(dottedPaths: set<string>, recurse: Recurse,
                     importable: string -> bool, walk: string -> seq<string>)
    requires ResolveSpec(dottedPaths, recurse, importable, walk).Success?
    ensures var res := ResolveSpec(dottedPaths, recurse, importable, walk).value;
      var all := AllPaths(dottedPaths, recurse);
      forall p, s :: p in all && WalksInto(p, RecurseSet(dottedPaths, recurse), importable) && s in walk(p) ==>
        s in res.targets && None in res.targets[s] && (s !in all ==> s in res.indirect)
  {
    var all := AllPaths(dottedPaths, recurse);
    var order := Sorted(all);
    var recurseSet := RecurseSet(dottedPaths, recurse);
    FoldWalksRecorded(order, recurseSet, importable, walk);
    forall p, s | p in all && WalksInto(p, recurseSet, importable) && s in walk(p)
      ensures s in WalkedOf(order, recurseSet, importable, walk)
    {
      WalkedOfIs(order, recurseSet, importable, walk, s);
    }
  }

  /** `resolve_profiling_targets` raises `TypeError` exactly when some path is not a dotted path. */
  lemma ResolveTypeError(dottedPaths: set<string>, recurse: Recurse,
                         importable: string -> bool, walk: string -> seq<string>)
    ensures ResolveSpec(dottedPaths, recurse, importable, walk).Failure?
            <==> exists p :: p in AllPaths(dottedPaths, recurse) && !IsDotted(p)
  {
    var all := AllPaths(dottedPaths, recurse);
    var order := Sorted(all);
    FoldFails(order, RecurseSet(dottedPaths, recurse), importable, walk);
    if exists p :: p in all && !IsDotted(p) {
      var p :| p in all && !IsDotted(p);
      assert p in order;
    }
  }

  /** On success every path is accounted for, and the result's sets and list are well formed. */
  lemma ResolveCoverage(dottedPaths: set<string>, recurse: Recurse,
                       importable: string -> bool, walk: string -> seq<string>)
    requires ResolveSpec(dottedPaths, recurse, importable, walk).Success?
    ensures var res := ResolveSpec(dottedPaths, recurse, importable, walk).value;
      var all := AllPaths(dottedPaths, recurse);
      (forall p :: p in all ==> Accounted(res, p, importable))
      && (forall p :: p in res.unresolved ==>
            p in all && SplitSpec(p, importable).Failure? && SplitSpec(p, importable).error.ModuleNotFound?)
      && (forall m :: m in res.targets ==> res.targets[m] != {})
      && (forall s :: s in res.indirect ==> s !in all && s in res.targets && None in res.targets[s])
      && StrictlySorted(res.unresolved)
  {
    var all := AllPaths(dottedPaths, recurse);
    var order := Sorted(all);
    var recurseSet := RecurseSet(dottedPaths, recurse);
    FoldGood(order, recurseSet, importable, walk);
    FoldFails(order, recurseSet, importable, walk);
    var st := ResolveFold(order, recurseSet, importable, walk).value;
    forall p | p in all
      ensures Accounted(st, p, importable)
    {
      var i :| 0 <= i < |order| && order[i] == p;
    }
    forall p | p in st.unresolved
      ensures SplitSpec(p, importable).error.ModuleNotFound?
    {
      var i :| 0 <= i < |st.unresolved| && st.unresolved[i] == p;
      var j :| 0 <= j < |order| && order[j] == p;
    }
  }

  /** On success everything in the result comes from the paths given or from walking recursed-into packages. */
  lemma ResolveOrigin(dottedPaths: set<string>, recurse: Recurse,
                       importable: string -> bool, walk: string -> seq<string>)
    requires ResolveSpec(dottedPaths, recurse, importable, walk).Success?
    ensures var res := ResolveSpec(dottedPaths, recurse, importable, walk).value;
      var all := AllPaths(dottedPaths, recurse);
      (forall m, t :: m in res.targets && t in res.targets[m] ==>
            (exists p :: p in all && SplitSpec(p, importable) == Success((m, t)))
            || (t.None? && exists p :: p in all && WalksInto(p, RecurseSet(dottedPaths, recurse), importable) && m in walk(p)))
      && (forall s :: s in res.indirect ==>
            exists p :: p in all && WalksInto(p, RecurseSet(dottedPaths, recurse), importable) && s in walk(p))
  {
    var all := AllPaths(dottedPaths, recurse);
    var order := Sorted(all);
    var recurseSet := RecurseSet(dottedPaths, recurse);
    var st := ResolveFold(order, recurseSet, importable, walk).value;
    FoldFromInput(order, recurseSet, importable, walk);
    forall m, t | m in st.targets && t in st.targets[m]
      ensures (exists p :: p in all && SplitSpec(p, importable) == Success((m, t)))
              || (t.None? && exists p :: p in all && WalksInto(p, recurseSet, importable) && m in walk(p))
    {
      DirectOfIs(order, importable, (m, t));
      WalkedOfIs(order, recurseSet, importable, walk, m);
    }
    forall s | s in st.indirect
      ensures exists p :: p in all && WalksInto(p, recurseSet, importable) && s in walk(p)
    {
      WalkedOfIs(order, recurseSet, importable, walk, s);
    }
  }

  /**
    On success: every path is either unresolved (its module cannot be found) or has its target
    under its module; every module maps to a non-empty set; every indirect module is a
    whole-module target and none is among the paths given; the unresolved paths are sorted.
    Conversely, every target is the split of a path given, or `None` under a submodule walked
    from a recursed-into package, and every indirect module was walked from such a package.
    Every submodule walked from such a package is a whole-module target, and indirect unless
    it was given.
   */
  lemma ResolveSuccess(dottedPaths: set<string>, recurse: Recurse,
                       importable: string -> bool, walk: string -> seq<string>)
    requires ResolveSpec(dottedPaths, recurse, importable, walk).Success?
    ensures var res := ResolveSpec(dottedPaths, recurse, importable, walk).value;
      var all := AllPaths(dottedPaths, recurse);
      (forall p :: p in all ==> Accounted(res, p, importable))
      && (forall p :: p in res.unresolved ==>
            p in all && SplitSpec(p, importable).Failure? && SplitSpec(p, importable).error.ModuleNotFound?)
      && (forall m :: m in res.targets ==> res.targets[m] != {})
      && (forall s :: s in res.indirect ==> s !in all && s in res.targets && None in res.targets[s])
      && StrictlySorted(res.unresolved)
      && (forall m, t :: m in res.targets && t in res.targets[m] ==>
            (exists p :: p in all && SplitSpec(p, importable) == Success((m, t)))
            || (t.None? && exists p :: p in all && WalksInto(p, RecurseSet(dottedPaths, recurse), importable) && m in walk(p)))
      && (forall s :: s in res.indirect ==>
            exists p :: p in all && WalksInto(p, RecurseSet(dottedPaths, recurse), importable) && s in walk(p))
      && (forall p, s :: p in all && WalksInto(p, RecurseSet(dottedPaths, recurse), importable) && s in walk(p) ==>
            s in res.targets && None in res.targets[s] && (s !in all ==> s in res.indirect))
  {
    ResolveCoverage(dottedPaths, recurse, importable, walk);
    ResolveOrigin(dottedPaths, recurse, importable, walk);
    ResolveWalks(dottedPaths, recurse, importable, walk);
  }

  /** Without recursion the loop never records an indirect submodule. */
  lemma {:induction false} FoldWithoutRecursion(order: seq<string>, importable: string -> bool,
                                                walk: string -> seq<string>)
    ensures ResolveFold(order, {}, importable, walk).Success?
            ==> ResolveFold(order, {}, importable, walk).value.indirect == {}
    decreases |order|
  {
    if order != [] {
      FoldWithoutRecursion(order[..|order| - 1], importable, walk);
    }
  }

  /** With `recurse=False`, `indirect` is empty. */
  lemma ResolveWithoutRecursion(dottedPaths: set<string>, importable: string -> bool, walk: string -> seq<string>)
    ensures ResolveSpec(dottedPaths, Flag(false), importable, walk).Success?
            ==> ResolveSpec(dottedPaths, Flag(false), importable, walk).value.indirect == {}
  {
    FoldWithoutRecursion(Sorted(AllPaths(dottedPaths, Flag(false))), importable, walk);
  }
}
