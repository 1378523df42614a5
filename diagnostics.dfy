/**
  `line_profiler._diagnostics`: boolean switches read from environment variables once, at import
  time. The environment is a map from variable names to values; whether `sys.monitoring` exists
  is a parameter.
 */
module Diagnostics {
  import opened Strings

  const DefaultTruey: set<string> := {"1", "on", "true", "yes"}
  const DefaultFalsy: set<string> := {"0", "off", "false", "no"}
  const LegacyAliases: set<string> := {"old", "legacy", "ctrace"}
  const MonitoringAliases: set<string> := {"new", "sys.monitoring", "sysmon"}

  /** No ASCII upper-case letter in `s`. */
  predicate NoUpperCase(s: string)
  {
    forall k :: 0 <= k < |s| ==> !('A' <= s[k] <= 'Z')
  }

  /** Folding fixes every string with no upper-case letter. */
  lemma FoldFixesLowerCase()
    ensures forall v :: NoUpperCase(v) ==> Fold(v) == v
  {
    forall v | NoUpperCase(v)
      ensures Fold(v) == v
    {
      FoldLowerCase(v);
    }
  }

  /** Folding a set of strings never makes it larger: `r` holds only folds of entries of `values`. */
  lemma {:induction false} FoldImageSize(values: set<string>, r: set<string>)
    requires forall f :: f in r ==> exists v :: v in values && Fold(v) == f
    ensures |r| <= |values|
    decreases |values|
  {
    if values == {} {
      assert r == {};
    } else {
      var x :| x in values;
      var rest := values - {x};
      var restImage := r - {Fold(x)};
      forall f | f in restImage
        ensures exists v :: v in rest && Fold(v) == f
      {
        var v :| v in values && Fold(v) == f;
        assert v in rest;
      }
      FoldImageSize(rest, restImage);
      SubsetSize(r, restImage + {Fold(x)});
    }
  }

  /** A subset is no larger than its superset. */
  lemma {:induction false} SubsetSize(a: set<string>, b: set<string>)
    requires a <= b
    ensures |a| <= |b|
  {
    assert b == a + (b - a);
  }

  /**
    The case-folded forms of `values`: at most as many as `values` (distinct entries may fold
    together), and every entry already in lower case is among them.
   */
  function FoldAll(values: set<string>): (r: set<string>)
    ensures |r| <= |values|
    ensures forall v :: v in values && NoUpperCase(v) ==> v in r
  {
    var r := set v | v in values :: Fold(v);
    FoldImageSize(values, r);
    FoldFixesLowerCase();
    r
  }

  /** `x` is a folded entry exactly when it is the fold of some entry. */
  lemma FoldAllMembership(values: set<string>, x: string)
    ensures x in FoldAll(values) <==> exists v :: v in values && Fold(v) == x
  {
  }

  /** Folding leaves a set of lower-case values as it is. */
  lemma {:induction false} FoldAllLowerCase(values: set<string>)
    requires forall v :: v in values ==> NoUpperCase(v)
    ensures FoldAll(values) == values
  {
    forall v | v in values
      ensures Fold(v) == v
    {
      FoldLowerCase(v);
    }
  }

  /** Membership in a set its folding leaves alone. */
  lemma FoldedMembership(values: set<string>, x: string)
    requires FoldAll(values) == values
    ensures x in FoldAll(values) <==> x in values
  {
  }

  /** The default truey values are written in lower case. */
  lemma DefaultTrueyFolded()
    ensures FoldAll(DefaultTruey) == DefaultTruey
  {
    assert NoUpperCase("1") && NoUpperCase("on") && NoUpperCase("true") && NoUpperCase("yes");
    FoldAllLowerCase(DefaultTruey);
  }

  /** A folded value matches a folded truey entry exactly when it is a truey entry. */
  lemma DefaultTrueyMembership(x: string)
    ensures x in FoldAll(DefaultTruey) <==> x in DefaultTruey
  {
    DefaultTrueyFolded();
    FoldedMembership(DefaultTruey, x);
  }

  /** The legacy-core aliases are written in lower case. */
  lemma LegacyAliasesFolded()
    ensures FoldAll(LegacyAliases) == LegacyAliases
  {
    assert NoUpperCase("old") && NoUpperCase("legacy") && NoUpperCase("ctrace");
    FoldAllLowerCase(LegacyAliases);
  }

  /** The same for the legacy-core aliases. */
  lemma LegacyAliasesMembership(x: string)
    ensures x in FoldAll(LegacyAliases) <==> x in LegacyAliases
  {
    LegacyAliasesFolded();
    FoldedMembership(LegacyAliases, x);
  }

  /**
    `_boolean_environ(envvar, truey, falsy, default)`: an unset variable gives `default`;
    otherwise only the set of the non-default outcome is consulted, and a case-insensitive match
    in it gives `not default`.
   */
  function BooleanEnviron(env: map<string, string>, envvar: string, truey: set<string>,
                          falsy: set<string>, default: bool): (r: bool)
    ensures r != default
            <==> envvar in env
                 && exists v :: v in (if default then falsy else truey) && Fold(v) == Fold(env[envvar])
  {
    if envvar !in env then default
    else
      var value := Fold(env[envvar]);
      var nonDefaultValues := if default then falsy else truey;
      FoldAllMembership(nonDefaultValues, value);
      if value in FoldAll(nonDefaultValues) then !default else default
  }

  /** An unset variable gives the default. */
  lemma {:induction false} UnsetGivesDefault(env: map<string, string>, envvar: string, truey: set<string>,
                          falsy: set<string>, default: bool)
    requires envvar !in env
    ensures BooleanEnviron(env, envvar, truey, falsy, default) == default
  {
  }

  /** With a `False` default, the switch is on exactly when the value matches a truey entry. */
  lemma {:induction false} DefaultFalseDecision(env: map<string, string>, envvar: string, truey: set<string>, falsy: set<string>)
    requires envvar in env
    ensures BooleanEnviron(env, envvar, truey, falsy, false)
            <==> exists v :: v in truey && Fold(v) == Fold(env[envvar])
  {
  }

  /** With a `True` default, the switch is off exactly when the value matches a falsy entry. */
  lemma {:induction false} DefaultTrueDecision(env: map<string, string>, envvar: string, truey: set<string>, falsy: set<string>)
    requires envvar in env
    ensures !BooleanEnviron(env, envvar, truey, falsy, true)
            <==> exists v :: v in falsy && Fold(v) == Fold(env[envvar])
  {
  }

  /** Only the set of the non-default outcome matters: the other one can be anything. */
  lemma {:induction false} OnlyNonDefaultSetConsulted(env: map<string, string>, envvar: string,
                                   truey1: set<string>, falsy1: set<string>,
                                   truey2: set<string>, falsy2: set<string>, default: bool)
    requires default ==> falsy1 == falsy2
    requires !default ==> truey1 == truey2
    ensures BooleanEnviron(env, envvar, truey1, falsy1, default)
            == BooleanEnviron(env, envvar, truey2, falsy2, default)
  {
  }

  /** The doctests: `'FOO'` and `'BaR'` against `truey=('foo',)` and `falsy=('bar',)`, and a mismatch. */
  lemma {:induction false} BooleanEnvironDoctests()
    ensures BooleanEnviron(map["MY_ENVVAR" := "FOO"], "MY_ENVVAR", {"foo"}, {"bar"}, true)
    ensures BooleanEnviron(map["MY_ENVVAR" := "FOO"], "MY_ENVVAR", {"foo"}, {"bar"}, false)
    ensures !BooleanEnviron(map["MY_ENVVAR" := "BaR"], "MY_ENVVAR", {"foo"}, {"bar"}, true)
    ensures !BooleanEnviron(map["MY_ENVVAR" := "BaR"], "MY_ENVVAR", {"foo"}, {"bar"}, false)
    ensures BooleanEnviron(map["MY_ENVVAR" := "baz"], "MY_ENVVAR", {"foo"}, {"bar"}, true)
    ensures !BooleanEnviron(map["MY_ENVVAR" := "baz"], "MY_ENVVAR", {"foo"}, {"bar"}, false)
  {
    TrueyDoctest();
    FalsyDoctest();
    MismatchDoctest();
  }

  lemma TrueyDoctest()
    ensures BooleanEnviron(map["MY_ENVVAR" := "FOO"], "MY_ENVVAR", {"foo"}, {"bar"}, true)
    ensures BooleanEnviron(map["MY_ENVVAR" := "FOO"], "MY_ENVVAR", {"foo"}, {"bar"}, false)
  {
    assert Fold("FOO") == "foo" && Fold("foo") == "foo";
    assert "foo" != "bar" by { assert "foo"[0] != "bar"[0]; }
  }

  lemma FalsyDoctest()
    ensures !BooleanEnviron(map["MY_ENVVAR" := "BaR"], "MY_ENVVAR", {"foo"}, {"bar"}, true)
    ensures !BooleanEnviron(map["MY_ENVVAR" := "BaR"], "MY_ENVVAR", {"foo"}, {"bar"}, false)
  {
    assert Fold("BaR") == "bar" && Fold("bar") == "bar";
    assert "foo" != "bar" by { assert "foo"[0] != "bar"[0]; }
  }

  lemma MismatchDoctest()
    ensures BooleanEnviron(map["MY_ENVVAR" := "baz"], "MY_ENVVAR", {"foo"}, {"bar"}, true)
    ensures !BooleanEnviron(map["MY_ENVVAR" := "baz"], "MY_ENVVAR", {"foo"}, {"bar"}, false)
  {
    assert Fold("baz") == "baz" && Fold("foo") == "foo" && Fold("bar") == "bar";
    assert "baz" != "bar" by { assert "baz"[2] != "bar"[2]; }
    assert "baz" != "foo" by { assert "baz"[0] != "foo"[0]; }
  }

  /** The module's switches. */
  datatype Switches = Switches(
    debug: bool, noExec: bool, keepTempdirs: bool, staticAnalysis: bool,
    wrapTrace: bool, setFrameLocalTrace: bool, useLegacyTrace: bool)

  /** `envvar` is set to `1`, `on`, `true` or `yes`, in any case. */
  predicate SetTruey(env: map<string, string>, envvar: string)
  {
    envvar in env && Fold(env[envvar]) in DefaultTruey
  }

  /** `LINE_PROFILER_CORE` names one of the legacy-core aliases, in any case. */
  predicate LegacyCoreRequested(env: map<string, string>)
  {
    "LINE_PROFILER_CORE" in env && Fold(env["LINE_PROFILER_CORE"]) in LegacyAliases
  }

  /**
    A switch with the default value sets and a `False` default: on exactly when its variable is
    one of the default truey values in any case; a falsy value and an unrecognised one both
    leave it off.
   */
  function Flag(env: map<string, string>, envvar: string): (r: bool)
    ensures r <==> SetTruey(env, envvar)
  {
    DefaultTrueyFolded();
    BooleanEnviron(env, envvar, DefaultTruey, DefaultFalsy, false)
  }

  /**
    `USE_LEGACY_TRACE`: forced on without `sys.monitoring`, whatever `LINE_PROFILER_CORE` says;
    with it, on exactly when `LINE_PROFILER_CORE` names a legacy alias (a monitoring alias and an
    unrecognised value both select `sys.monitoring`).
   */
  function UseLegacyTrace(env: map<string, string>, hasMonitoring: bool): (r: bool)
    ensures !hasMonitoring ==> r
    ensures hasMonitoring ==> (r <==> LegacyCoreRequested(env))
  {
    LegacyAliasesFolded();
    var mustUseLegacy := !hasMonitoring;
    mustUseLegacy
    || BooleanEnviron(env, "LINE_PROFILER_CORE", LegacyAliases, MonitoringAliases, mustUseLegacy)
  }

  /** The switches computed at import time, each from its own variable. */
  function ReadSwitches(env: map<string, string>, hasMonitoring: bool): (r: Switches)
    ensures r.debug == SetTruey(env, "LINE_PROFILER_DEBUG")
    ensures r.noExec == SetTruey(env, "LINE_PROFILER_NO_EXEC")
    ensures r.keepTempdirs == SetTruey(env, "LINE_PROFILER_KEEP_TEMPDIRS")
    ensures r.staticAnalysis == SetTruey(env, "LINE_PROFILER_STATIC_ANALYSIS")
    ensures r.wrapTrace == SetTruey(env, "LINE_PROFILER_WRAP_TRACE")
    ensures r.setFrameLocalTrace == SetTruey(env, "LINE_PROFILER_SET_FRAME_LOCAL_TRACE")
    ensures r.useLegacyTrace <==> !hasMonitoring || LegacyCoreRequested(env)
  {
    Switches(
      Flag(env, "LINE_PROFILER_DEBUG"),
      Flag(env, "LINE_PROFILER_NO_EXEC"),
      Flag(env, "LINE_PROFILER_KEEP_TEMPDIRS"),
      Flag(env, "LINE_PROFILER_STATIC_ANALYSIS"),
      Flag(env, "LINE_PROFILER_WRAP_TRACE"),
      Flag(env, "LINE_PROFILER_SET_FRAME_LOCAL_TRACE"),
      UseLegacyTrace(env, hasMonitoring))
  }
}
