/**
  `line_profiler.autoprofile.eager_preimports`: dotted paths (`is_dotted_path`) and their split
  into an importable module and an attribute path on it (`split_dotted_path`). Whether a module
  can be found (`modname_to_modpath` when `static`, `importlib.util.find_spec` otherwise, an
  `ImportError` counting as "not found") is the oracle `importable`.
 */
module DottedPaths {
  import opened Wrappers
  import opened Strings

  /** A Python value where a string is expected: a string, or any other object. */
  datatype PyObj = Str(s: string) | NonStr

  /** One period-separated chunk of a dotted path: an identifier that is not a keyword. */
  predicate IsChunk(c: string)
  {
    IsIdentifier(c) && !IsKeyword(c)
  }

  /** A non-empty list of valid chunks. */
  predicate ValidChunks(cs: seq<string>)
  {
    |cs| >= 1 && forall k :: 0 <= k < |cs| ==> IsChunk(cs[k])
  }

  /** `is_dotted_path` on a string: non-empty, and every chunk of `s.split('.')` is valid. */
  predicate IsDotted(s: string)
  {
    s != "" && ValidChunks(Split(s, '.'))
  }


  /** Chunks never contain a period. */
  lemma ChunksHaveNoPeriod(cs: seq<string>)
    requires ValidChunks(cs)
    ensures forall k :: 0 <= k < |cs| ==> '.' !in cs[k]
  {
    forall k | 0 <= k < |cs|
      ensures '.' !in cs[k]
    {
      assert IsIdentifier(cs[k]);
    }
  }

  /** The join of a non-empty list of valid chunks is not empty. */
  lemma JoinChunksNonEmpty(cs: seq<string>)
    requires ValidChunks(cs)
    ensures Join(cs, '.') != ""
  {
    JoinEmpty(cs, '.');
    assert IsIdentifier(cs[0]);
  }

  /**
    A string is a dotted path exactly when it is the period-join of a non-empty list of
    identifiers that are not keywords; in particular `''`, a leading or trailing period and
    two periods in a row are all rejected.
   */
  lemma DottedIffJoinOfChunks(s: string)
    ensures IsDotted(s) <==> exists cs :: ValidChunks(cs) && Join(cs, '.') == s
  {
    if IsDotted(s) {
      JoinSplit(s, '.');
      assert ValidChunks(Split(s, '.')) && Join(Split(s, '.'), '.') == s;
    }
    if cs :| ValidChunks(cs) && Join(cs, '.') == s {
      ChunksHaveNoPeriod(cs);
      SplitJoin(cs, '.');
      JoinChunksNonEmpty(cs);
    }
  }

  /**
    `is_dotted_path(obj)`: false for anything but a string; a string is accepted exactly when it
    is the period-join of a non-empty list of identifiers that are not keywords.
   */
  function IsDottedPath(obj: PyObj): (r: bool)
    ensures r <==> obj.Str? && exists cs :: ValidChunks(cs) && Join(cs, '.') == obj.s
  {
    if obj.Str? then DottedIffJoinOfChunks(obj.s); IsDotted(obj.s) else false
  }

  // ----- split_dotted_path -----

  datatype SplitError = TypeError | ModuleNotFound(checked: seq<string>)

  /** The module candidate at slicing point `k`: the first `k` chunks joined by periods. */
  function Prefix(chunks: seq<string>, k: nat): string
    requires k <= |chunks|
  {
    Join(chunks[..k], '.')
  }

  /** The target at slicing point `k`: the remaining chunks joined by periods, or `None` if empty. */
  function Rest(chunks: seq<string>, k: nat): Option<string>
    requires k <= |chunks|
  {
    var t := Join(chunks[k..], '.');
    if t == "" then None else Some(t)
  }

  /** The candidates rejected before slicing point `k` is tried, longest first. */
  function CheckedAbove(chunks: seq<string>, k: nat): seq<string>
    requires k <= |chunks|
    decreases |chunks| - k
  {
    if k == |chunks| then [] else CheckedAbove(chunks, k + 1) + [Prefix(chunks, k + 1)]
  }

  /** The first slicing point, counting down from `k` to 1, whose prefix is importable. */
  function Search(chunks: seq<string>, k: nat, importable: string -> bool): (r: Option<nat>)
    requires k <= |chunks|
    ensures r.Some? ==> 1 <= r.value <= k
  {
    if k == 0 then None
    else if importable(Prefix(chunks, k)) then Some(k)
    else Search(chunks, k - 1, importable)
  }

  /**
    The outcome of `split_dotted_path(path)`: a returned module is importable, and every
    candidate listed by `ModuleNotFoundError` was rejected.
   */
  function SplitSpec(path: string, importable: string -> bool): (r: Result<(string, Option<string>), SplitError>)
    ensures r.Success? ==> importable(r.value.0)
    ensures r.Failure? && r.error.ModuleNotFound? ==>
      |r.error.checked| == |Split(path, '.')| && forall m :: m in r.error.checked ==> !importable(m)
  {
    if !IsDotted(path) then Failure(TypeError)
    else
      var chunks := Split(path, '.');
      SearchFinds(chunks, |chunks|, importable);
      match Search(chunks, |chunks|, importable)
      case None =>
        NoneImportable(chunks, importable);
        Failure(ModuleNotFound(CheckedAbove(chunks, 0)))
      case Some(k) => Success((Prefix(chunks, k), Rest(chunks, k)))
  }

  /** When no prefix is importable, none of the candidates listed is. */
  lemma NoneImportable(chunks: seq<string>, importable: string -> bool)
    requires forall i :: 1 <= i <= |chunks| ==> !importable(Prefix(chunks, i))
    ensures |CheckedAbove(chunks, 0)| == |chunks|
    ensures forall m :: m in CheckedAbove(chunks, 0) ==> !importable(m)
  {
    CheckedAboveIs(chunks, 0);
    forall m | m in CheckedAbove(chunks, 0)
      ensures !importable(m)
    {
      var i :| 0 <= i < |chunks| && CheckedAbove(chunks, 0)[i] == m;
    }
  }

  /** `split_dotted_path(dotted_path)`: tries the slicing points from the longest prefix down. */
  method SplitDottedPath(path: string, importable: string -> bool)
    returns (r: Result<(string, Option<string>), SplitError>)
    ensures r == SplitSpec(path, importable)
  {
    if !IsDotted(path) {
      return Failure(TypeError);
    }
    var chunks := Split(path, '.');
    var checked: seq<string> := [];
    var slicingPoint := |chunks|;
    while slicingPoint > 0
      invariant 0 <= slicingPoint <= |chunks|
      invariant checked == CheckedAbove(chunks, slicingPoint)
      invariant Search(chunks, |chunks|, importable) == Search(chunks, slicingPoint, importable)
    {
      var moduleName := Join(chunks[..slicingPoint], '.');
      var t := Join(chunks[slicingPoint..], '.');
      var target := if t == "" then None else Some(t);
      if importable(moduleName) {
        return Success((moduleName, target));
      }
      checked := checked + [moduleName];
      slicingPoint := slicingPoint - 1;
    }
    return Failure(ModuleNotFound(checked));
  }

  /** The search result is a slicing point at or below `k` whose prefix is importable, and none above it is. */
  lemma {:induction false} SearchFinds(chunks: seq<string>, k: nat, importable: string -> bool)
    requires k <= |chunks|
    ensures Search(chunks, k, importable).Some? ==>
      var j := Search(chunks, k, importable).value;
      1 <= j <= k && importable(Prefix(chunks, j))
      && forall i :: j < i <= k ==> !importable(Prefix(chunks, i))
    ensures Search(chunks, k, importable).None? ==>
      forall i :: 1 <= i <= k ==> !importable(Prefix(chunks, i))
    decreases k
  {
    if k > 0 && !importable(Prefix(chunks, k)) {
      SearchFinds(chunks, k - 1, importable);
    }
  }

  /** The rejected candidates above `k` are the prefixes of lengths `|chunks|` down to `k + 1`. */
  lemma {:induction false} CheckedAboveIs(chunks: seq<string>, k: nat)
    requires k <= |chunks|
    ensures |CheckedAbove(chunks, k)| == |chunks| - k
    ensures forall i :: 0 <= i < |chunks| - k ==> CheckedAbove(chunks, k)[i] == Prefix(chunks, |chunks| - i)
    decreases |chunks| - k
  {
    if k < |chunks| {
      CheckedAboveIs(chunks, k + 1);
    }
  }

  /** `split_dotted_path` raises `TypeError` exactly for strings that are not dotted paths. */
  lemma SplitTypeError(path: string, importable: string -> bool)
    ensures SplitSpec(path, importable) == Failure(TypeError) <==> !IsDotted(path)
  {
  }

  /** The prefix and the rest at a slicing point recombine into the whole path. */
  lemma {:induction false} PrefixRestRoundTrip(chunks: seq<string>, k: nat)
    requires ValidChunks(chunks)
    requires 1 <= k <= |chunks|
    ensures Prefix(chunks, k) != ""
    ensures Rest(chunks, k).None? <==> k == |chunks|
    ensures Rest(chunks, k).Some? ==> Prefix(chunks, k) + "." + Rest(chunks, k).value == Join(chunks, '.')
  {
    assert ValidChunks(chunks[..k]);
    JoinChunksNonEmpty(chunks[..k]);
    if k == |chunks| {
      assert chunks[k..] == [];
    } else {
      assert ValidChunks(chunks[k..]);
      JoinChunksNonEmpty(chunks[k..]);
      JoinAppend(chunks[..k], chunks[k..], '.');
      assert chunks[..k] + chunks[k..] == chunks;
    }
  }

  /**
    A successful split names an importable, non-empty prefix module of the path; the target is
    `None` exactly when the module is the whole path, and otherwise `module + '.' + target` is
    the path; no longer prefix is importable.
   */
  lemma SplitSuccess(path: string, importable: string -> bool)
    requires SplitSpec(path, importable).Success?
    ensures var (moduleName, target) := SplitSpec(path, importable).value;
      var chunks := Split(path, '.');
      moduleName != "" && importable(moduleName)
      && (target.None? <==> moduleName == path)
      && (target.Some? ==> moduleName + "." + target.value == path)
      && exists k :: 1 <= k <= |chunks| && moduleName == Prefix(chunks, k)
           && forall i :: k < i <= |chunks| ==> !importable(Prefix(chunks, i))
  {
    var chunks := Split(path, '.');
    SearchFinds(chunks, |chunks|, importable);
    var k := Search(chunks, |chunks|, importable).value;
    PrefixRestRoundTrip(chunks, k);
    JoinSplit(path, '.');
    if k < |chunks| {
      var rest := Rest(chunks, k).value;
      assert |Prefix(chunks, k)| < |path|;
    } else {
      assert chunks[..k] == chunks;
    }
  }

  /**
    `ModuleNotFoundError` is raised exactly when the path is dotted and none of its prefixes is
    importable, and it lists every prefix, longest first.
   */
  lemma SplitNotFound(path: string, importable: string -> bool)
    ensures SplitSpec(path, importable).Failure? && SplitSpec(path, importable).error.ModuleNotFound?
      <==> IsDotted(path)
           && forall i :: 1 <= i <= |Split(path, '.')| ==> !importable(Prefix(Split(path, '.'), i))
    ensures SplitSpec(path, importable).Failure? && SplitSpec(path, importable).error.ModuleNotFound? ==>
      var chunks := Split(path, '.');
      var checked := SplitSpec(path, importable).error.checked;
      |checked| == |chunks|
      && forall i :: 0 <= i < |chunks| ==> checked[i] == Prefix(chunks, |chunks| - i) && !importable(checked[i])
  {
    var chunks := Split(path, '.');
    SearchFinds(chunks, |chunks|, importable);
    CheckedAboveIs(chunks, 0);
  }
}

/** The doctests of `is_dotted_path` and `split_dotted_path`, over a small importable world. */
module DottedPathsExamples {
  import opened Wrappers
  import opened Strings
  import opened DottedPaths

  const FooBar: seq<string> := ["foo", "bar"]
  const FooBarBaz: seq<string> := ["foo", "bar", "baz"]
  const FindSpecChunks: seq<string> := ["importlib", "util", "find_spec"]
  const LoaderChunks: seq<string> := ["importlib", "abc", "Loader", "exec_module"]

  /** The modules the doctests can find. */
  function Importable(m: string): bool
  {
    m in {"importlib", "importlib.util", "importlib.abc"}
  }

  lemma FooBarBazValid()
    ensures ValidChunks(FooBarBaz) && ValidChunks(FooBar) && ValidChunks(["foo"])
  {
    assert IsChunk("foo");
    assert IsChunk("bar");
    assert IsChunk("baz");
  }

  lemma FindSpecValid()
    ensures ValidChunks(FindSpecChunks)
  {
    assert IsChunk("importlib");
    assert IsChunk("util");
    assert IsChunk("find_spec");
  }

  lemma LoaderValid()
    ensures ValidChunks(LoaderChunks)
  {
    assert IsChunk("importlib");
    assert IsChunk("abc");
    assert IsChunk("Loader");
    assert IsChunk("exec_module");
  }

  /** `'foo'` and `'foo.bar'` are dotted paths; a non-string is not. */
  lemma IsDottedPathAccepts()
    ensures !IsDottedPath(NonStr)
    ensures IsDottedPath(Str("foo"))
    ensures IsDottedPath(Str("foo.bar"))
  {
    FooBarBazValid();
    DottedIffJoinOfChunks("foo");
    assert Join(["foo"], '.') == "foo";
    DottedIffJoinOfChunks("foo.bar");
    Join2("foo", "bar");
  }

  const NotAnIdentifier := "not an identifier"
  const KeywordChunks: seq<string> := ["keyword", "return", "not", "allowed"]
  const KeywordPath := "keyword.return.not.allowed"
  const FooBarBazPath := "foo.bar.baz"
  const FindSpecPath := "importlib.util.find_spec"
  const LoaderPath := "importlib.abc.Loader.exec_module"

  lemma NotAnIdentifierSplit()
    ensures Split(NotAnIdentifier, '.') == [NotAnIdentifier]
  {
    assert forall k :: 0 <= k < |NotAnIdentifier| ==> NotAnIdentifier[k] != '.';
    SplitNoSep(NotAnIdentifier, '.');
  }

  /** `'not an identifier'` is not a dotted path: its single chunk contains spaces. */
  lemma IsDottedPathRejectsSpaces()
    ensures !IsDottedPath(Str(NotAnIdentifier))
  {
    NotAnIdentifierSplit();
    assert !IsIdentifier(NotAnIdentifier) by {
      assert !IsIdentContinue(NotAnIdentifier[3]);
    }
    assert !IsChunk(Split(NotAnIdentifier, '.')[0]);
  }

  lemma KeywordPathSplit()
    ensures Split(KeywordPath, '.') == KeywordChunks
  {
    assert '.' !in KeywordChunks[0];
    assert '.' !in KeywordChunks[1];
    assert '.' !in KeywordChunks[2];
    assert '.' !in KeywordChunks[3];
    SplitJoin(KeywordChunks, '.');
    KeywordJoin();
  }

  /** `'keyword.return.not.allowed'` is not a dotted path: `return` is a keyword. */
  lemma IsDottedPathRejectsKeywords()
    ensures !IsDottedPath(Str(KeywordPath))
  {
    KeywordPathSplit();
    assert IsKeyword(KeywordChunks[1]);
  }

  lemma FooBarBazSplit()
    ensures IsDotted(FooBarBazPath) && Split(FooBarBazPath, '.') == FooBarBaz
  {
    FooBarBazValid();
    ChunksHaveNoPeriod(FooBarBaz);
    SplitJoin(FooBarBaz, '.');
    FooBarBazJoin();
  }

  lemma FindSpecSplit()
    ensures IsDotted(FindSpecPath) && Split(FindSpecPath, '.') == FindSpecChunks
  {
    FindSpecValid();
    ChunksHaveNoPeriod(FindSpecChunks);
    SplitJoin(FindSpecChunks, '.');
    FindSpecJoin();
  }

  lemma LoaderSplit()
    ensures IsDotted(LoaderPath) && Split(LoaderPath, '.') == LoaderChunks
  {
    LoaderValid();
    ChunksHaveNoPeriod(LoaderChunks);
    SplitJoin(LoaderChunks, '.');
    LoaderJoin();
  }

  lemma KeywordJoin()
    ensures Join(KeywordChunks, '.') == KeywordPath
  {
    Join4("keyword", "return", "not", "allowed");
  }

  lemma FooBarBazJoin()
    ensures Join(FooBarBaz, '.') == FooBarBazPath
  {
    Join3("foo", "bar", "baz");
  }

  lemma FindSpecJoin()
    ensures Join(FindSpecChunks, '.') == FindSpecPath
  {
    Join3("importlib", "util", "find_spec");
  }

  lemma LoaderJoin()
    ensures Join(LoaderChunks, '.') == LoaderPath
  {
    Join4("importlib", "abc", "Loader", "exec_module");
  }

  lemma Join2(a: string, b: string)
    ensures Join([a, b], '.') == a + "." + b
  {
    assert [a, b][1..] == [b];
  }

  lemma Join3(a: string, b: string, c: string)
    ensures Join([a, b, c], '.') == a + "." + b + "." + c
  {
    assert [a, b, c][1..] == [b, c];
    Join2(b, c);
  }

  lemma Join4(a: string, b: string, c: string, d: string)
    ensures Join([a, b, c, d], '.') == a + "." + b + "." + c + "." + d
  {
    assert [a, b, c, d][1..] == [b, c, d];
    Join3(b, c, d);
  }

  lemma FindSpecPrefixes()
    ensures Prefix(FindSpecChunks, 3) == FindSpecPath
    ensures Prefix(FindSpecChunks, 2) == "importlib.util"
  {
    assert FindSpecChunks[..3] == ["importlib", "util", "find_spec"];
    Join3("importlib", "util", "find_spec");
    assert FindSpecChunks[..2] == ["importlib", "util"];
    Join2("importlib", "util");
  }

  lemma FindSpecSearch()
    ensures Search(FindSpecChunks, 3, Importable) == Some(2)
  {
    FindSpecPrefixes();
    assert !Importable(FindSpecPath);
  }

  lemma FindSpecRest()
    ensures Rest(FindSpecChunks, 2) == Some("find_spec")
  {
    assert FindSpecChunks[2..] == ["find_spec"];
  }

  /** `split_dotted_path('importlib.util.find_spec') == ('importlib.util', 'find_spec')`. */
  lemma SplitFindSpec()
    ensures SplitSpec(FindSpecPath, Importable) == Success(("importlib.util", Some("find_spec")))
  {
    FindSpecSplit();
    FindSpecSearch();
    FindSpecRest();
    FindSpecPrefixes();
  }

  lemma LoaderPrefixes()
    ensures Prefix(LoaderChunks, 4) == LoaderPath
    ensures Prefix(LoaderChunks, 3) == "importlib.abc.Loader"
    ensures Prefix(LoaderChunks, 2) == "importlib.abc"
  {
    assert LoaderChunks[..4] == ["importlib", "abc", "Loader", "exec_module"];
    Join4("importlib", "abc", "Loader", "exec_module");
    assert LoaderChunks[..3] == ["importlib", "abc", "Loader"];
    Join3("importlib", "abc", "Loader");
    assert LoaderChunks[..2] == ["importlib", "abc"];
    Join2("importlib", "abc");
  }

  lemma LoaderSearch()
    ensures Search(LoaderChunks, 4, Importable) == Some(2)
  {
    LoaderPrefixes();
    assert !Importable(LoaderPath);
    assert !Importable("importlib.abc.Loader");
  }

  lemma LoaderRest()
    ensures Rest(LoaderChunks, 2) == Some("Loader.exec_module")
  {
    assert LoaderChunks[2..] == ["Loader", "exec_module"];
    assert Join(["Loader", "exec_module"], '.') == "Loader.exec_module";
  }

  /** `split_dotted_path('importlib.abc.Loader.exec_module') == ('importlib.abc', 'Loader.exec_module')`. */
  lemma SplitExecModule()
    ensures SplitSpec(LoaderPath, Importable) == Success(("importlib.abc", Some("Loader.exec_module")))
  {
    LoaderSplit();
    LoaderSearch();
    LoaderRest();
    LoaderPrefixes();
  }

  const UtilChunks: seq<string> := ["importlib", "util"]
  const UtilPath := "importlib.util"

  lemma UtilValid()
    ensures ValidChunks(UtilChunks)
  {
    assert IsChunk("importlib");
    assert IsChunk("util");
  }

  lemma UtilJoin()
    ensures Join(UtilChunks, '.') == UtilPath
  {
    Join2("importlib", "util");
  }

  lemma UtilSplit()
    ensures IsDotted(UtilPath) && Split(UtilPath, '.') == UtilChunks
  {
    UtilValid();
    ChunksHaveNoPeriod(UtilChunks);
    SplitJoin(UtilChunks, '.');
    UtilJoin();
  }

  lemma UtilPrefix()
    ensures Prefix(UtilChunks, 2) == UtilPath
  {
    assert UtilChunks[..2] == UtilChunks;
    UtilJoin();
  }

  /** `split_dotted_path('importlib.util') == ('importlib.util', None)`. */
  lemma SplitImportlibUtil()
    ensures SplitSpec(UtilPath, Importable) == Success((UtilPath, None))
  {
    UtilSplit();
    UtilPrefix();
    assert Search(UtilChunks, 2, Importable) == Some(2);
    assert UtilChunks[2..] == [];
  }

  const NotDottedPath := "not a dotted path"

  lemma NotDottedSplit()
    ensures Split(NotDottedPath, '.') == [NotDottedPath]
  {
    assert forall k :: 0 <= k < |NotDottedPath| ==> NotDottedPath[k] != '.';
    SplitNoSep(NotDottedPath, '.');
  }

  /** `'not a dotted path'` is not a dotted path: its single chunk contains spaces. */
  lemma NotDottedRejected()
    ensures !IsDotted(NotDottedPath)
  {
    NotDottedSplit();
    assert !IsIdentifier(NotDottedPath) by {
      assert !IsIdentContinue(NotDottedPath[3]);
    }
    assert !IsChunk(Split(NotDottedPath, '.')[0]);
  }

  /** `split_dotted_path('not a dotted path')` raises `TypeError`. */
  lemma SplitNotDotted()
    ensures SplitSpec(NotDottedPath, Importable) == Failure(TypeError)
  {
    NotDottedRejected();
    SplitTypeError(NotDottedPath, Importable);
  }

  lemma FooBarBazPrefixes()
    ensures Prefix(FooBarBaz, 3) == FooBarBazPath
    ensures Prefix(FooBarBaz, 2) == "foo.bar"
    ensures Prefix(FooBarBaz, 1) == "foo"
  {
    assert FooBarBaz[..3] == ["foo", "bar", "baz"];
    Join3("foo", "bar", "baz");
    assert FooBarBaz[..2] == ["foo", "bar"];
    Join2("foo", "bar");
    assert FooBarBaz[..1] == ["foo"];
  }

  lemma FooBarBazSearch()
    ensures Search(FooBarBaz, 3, Importable).None?
  {
    FooBarBazPrefixes();
    assert !Importable(FooBarBazPath);
    assert !Importable("foo.bar");
    assert !Importable("foo");
  }

  lemma FooBarBazChecked()
    ensures CheckedAbove(FooBarBaz, 0) == ["foo.bar.baz", "foo.bar", "foo"]
  {
    FooBarBazPrefixes();
    assert CheckedAbove(FooBarBaz, 2) == [FooBarBazPath];
    assert CheckedAbove(FooBarBaz, 1) == [FooBarBazPath, "foo.bar"];
  }

  /** `split_dotted_path('foo.bar.baz')` raises `ModuleNotFoundError` listing `['foo.bar.baz', 'foo.bar', 'foo']`. */
  lemma SplitNotImportable()
    ensures SplitSpec(FooBarBazPath, Importable) == Failure(ModuleNotFound(["foo.bar.baz", "foo.bar", "foo"]))
  {
    FooBarBazSplit();
    FooBarBazSearch();
    FooBarBazChecked();
  }
}
