/**
  The part of `line_profiler.autoprofile.eager_preimports.write_eager_import_module` that runs
  before anything is written: `adder` and `indent` are checked, three fresh names (for the
  adder, the list of failures and the imported module) are chosen outside the names `adder`
  loads, and the targets are resolved. `parse` stands for `get_expression` (`ast.parse` in
  `eval` mode); `importable` and `walk` are the oracles of `ResolveTargets`.
 */
module EagerImport {
  import opened Wrappers
  import opened Strings
  import opened DottedPaths
  import opened NameProposals
  import opened NameFinder
  import opened ResolveTargets

  datatype EagerError = TypeError | ValueError

  const AdderPrefixes: seq<string> := ["add", "add_func", "a", "f"]
  const FailuresPrefixes: seq<string> := ["failures", "failed_targets", "f", "_"]
  const ModulePrefixes: seq<string> := ["module", "mod", "imported", "m", "_"]

  /**
    `adder` must be a string of a single line (a line break may only end it) that parses to a
    single expression, which is returned; a non-string is a `TypeError`, any other rejection a
    `ValueError`.
   */
  function CheckAdder(adder: PyObj, parse: string -> Option<Node>): (r: Result<Node, EagerError>)
    ensures r.Success? <==> adder.Str? && OneLine(adder.s) && parse(adder.s).Some?
    ensures r.Success? ==> parse(adder.s) == Some(r.value)
    ensures r.Failure? ==> (r.error == EagerError.TypeError <==> adder.NonStr?)
  {
    match adder
    case NonStr => Failure(EagerError.TypeError)
    case Str(s) =>
      LineCountOne(s);
      if LineCount(s) != 1 then Failure(ValueError)
      else
        match parse(s)
        case None => Failure(ValueError)
        case Some(expr) => Success(expr)
  }

  /**
    `indent` must be a single line of whitespace, not empty; `None` when it is, otherwise
    `TypeError` for a non-string and `ValueError` for any other string.
   */
  function CheckIndent(indent: PyObj): (r: Option<EagerError>)
    ensures r.None? <==> indent.Str? && OneLine(indent.s) && IsSpace(indent.s)
    ensures r.Some? ==> (r.value == EagerError.TypeError <==> indent.NonStr?)
  {
    match indent
    case NonStr => Some(EagerError.TypeError)
    case Str(s) =>
      LineCountOne(s);
      if LineCount(s) == 1 && IsSpace(s) then None else Some(ValueError)
  }

  /**
    The three names of the written module, each the first of its stream that is neither loaded
    by `adder` nor one of the names chosen before it.
   */
  method ChooseNames(loaded: set<string>) returns (adderName: string, failuresName: string, moduleName: string)
    ensures IsFirstFree(AdderPrefixes, loaded, adderName)
    ensures IsFirstFree(FailuresPrefixes, loaded + {adderName}, failuresName)
    ensures IsFirstFree(ModulePrefixes, loaded + {adderName, failuresName}, moduleName)
    ensures IsIdentifier(adderName) && IsIdentifier(failuresName) && IsIdentifier(moduleName)
    ensures adderName != failuresName && adderName != moduleName && failuresName != moduleName
    ensures adderName !in loaded && failuresName !in loaded && moduleName !in loaded
  {
    AdderPrefixesChunks();
    adderName := FreshName(AdderPrefixes, loaded);
    FailuresPrefixesChunks();
    failuresName := FreshName(FailuresPrefixes, loaded + {adderName});
    ModulePrefixesChunks();
    moduleName := FreshName(ModulePrefixes, loaded + {adderName, failuresName});
  }

  /** The first name of the stream of `ps` outside `forbidden`, a valid identifier. */
  method FreshName(ps: seq<string>, forbidden: set<string>) returns (name: string)
    requires |ps| >= 1 && AllChunks(ps)
    ensures IsFirstFree(ps, forbidden, name) && IsIdentifier(name) && name !in forbidden
  {
    var index;
    name, index := FirstFree(ps, forbidden);
    FirstFreeFound(ps, forbidden, name, index);
    NthIsIdentifier(ps, index);
  }

  /** The names the written module uses, and the resolved targets it imports. */
  datatype Preamble = Preamble(adderName: string, failuresName: string, moduleName: string, resolved: Resolved)

  /**
    The checks and choices of `write_eager_import_module`: errors in `adder` come first, then
    errors in `indent`, then a `TypeError` for a path that is not dotted; on success the
    three names are the first free ones of their streams, valid identifiers, pairwise distinct
    and not loaded by `adder`, and the targets are those `resolve_profiling_targets` gives.
   */
  method WriteEagerImportModule(dottedPaths: set<string>, recurse: Recurse, adder: PyObj, indent: PyObj,
                                parse: string -> Option<Node>, importable: string -> bool,
                                walk: string -> seq<string>)
    returns (r: Result<Preamble, EagerError>)
    ensures CheckAdder(adder, parse).Failure? ==> r == Failure(CheckAdder(adder, parse).error)
    ensures CheckAdder(adder, parse).Success? && CheckIndent(indent).Some?
            ==> r == Failure(CheckIndent(indent).value)
    ensures CheckAdder(adder, parse).Success? && CheckIndent(indent).None?
            ==> (r.Failure? <==> exists p :: p in AllPaths(dottedPaths, recurse) && !IsDotted(p))
    ensures r.Failure? && CheckAdder(adder, parse).Success? && CheckIndent(indent).None?
            ==> r.error == EagerError.TypeError
    ensures r.Success? ==>
      CheckAdder(adder, parse).Success? && CheckIndent(indent).None? &&
      var loaded := LoadedIn(CheckAdder(adder, parse).value, []);
      var p := r.value;
      IsFirstFree(AdderPrefixes, loaded, p.adderName)
      && IsFirstFree(FailuresPrefixes, loaded + {p.adderName}, p.failuresName)
      && IsFirstFree(ModulePrefixes, loaded + {p.adderName, p.failuresName}, p.moduleName)
      && IsIdentifier(p.adderName) && IsIdentifier(p.failuresName) && IsIdentifier(p.moduleName)
      && p.adderName != p.failuresName && p.adderName != p.moduleName && p.failuresName != p.moduleName
      && p.adderName !in loaded && p.failuresName !in loaded && p.moduleName !in loaded
      && ResolveSpec(dottedPaths, recurse, importable, walk) == Success(p.resolved)
  {
    var checked := CheckAdder(adder, parse);
    if checked.Failure? {
      return Failure(checked.error);
    }
    var indentError := CheckIndent(indent);
    if indentError.Some? {
      return Failure(indentError.value);
    }
    var expr := checked.value;
    var loaded := LoadedNameFinder.Find(expr);
    var adderName, failuresName, moduleName := ChooseNames(loaded);

    ResolveTypeError(dottedPaths, recurse, importable, walk);
    var resolved := ResolveProfilingTargets(dottedPaths, recurse, importable, walk);
    if resolved.Failure? {
      return Failure(EagerError.TypeError);
    }
    return Success(Preamble(adderName, failuresName, moduleName, resolved.value));
  }

  /** The three prefix lists are accepted by `propose_names` as they are. */
  lemma PrefixesChecked()
    ensures AllChunks(AdderPrefixes) && AllChunks(FailuresPrefixes) && AllChunks(ModulePrefixes)
    ensures Prefixes(AdderPrefixes) == Success(AdderPrefixes)
    ensures Prefixes(FailuresPrefixes) == Success(FailuresPrefixes)
    ensures Prefixes(ModulePrefixes) == Success(ModulePrefixes)
  {
    AdderPrefixesChunks();
    FailuresPrefixesChunks();
    ModulePrefixesChunks();
    DedupDistinct(AdderPrefixes);
    DedupDistinct(FailuresPrefixes);
    DedupDistinct(ModulePrefixes);
    PrefixesValid(AdderPrefixes);
    PrefixesValid(FailuresPrefixes);
    PrefixesValid(ModulePrefixes);
  }

  lemma AdderPrefixesChunks()
    ensures AllChunks(AdderPrefixes)
  {
    assert IsIdentifier("add") && IsIdentifier("add_func") && IsIdentifier("a") && IsIdentifier("f");
  }

  lemma FailuresPrefixesChunks()
    ensures AllChunks(FailuresPrefixes)
  {
    assert IsIdentifier("failures") && IsIdentifier("failed_targets") && IsIdentifier("f") && IsIdentifier("_");
  }

  lemma ModulePrefixesChunks()
    ensures AllChunks(ModulePrefixes)
  {
    assert IsIdentifier("module") && IsIdentifier("mod") && IsIdentifier("imported");
    assert IsIdentifier("m") && IsIdentifier("_");
  }

  /**
    The default `indent` of four spaces is accepted; an empty or two-line one is not. A lone
    line break passes too: it is whitespace and `splitlines` gives one (empty) line for it.
   */
  lemma IndentExamples()
    ensures CheckIndent(Str("    ")) == None
    ensures CheckIndent(Str("\n")) == None
    ensures CheckIndent(Str("")) == Some(ValueError)
    ensures CheckIndent(Str(" \n ")) == Some(ValueError)
    ensures CheckIndent(Str("\t")) == None
    ensures CheckIndent(NonStr) == Some(EagerError.TypeError)
  {
    assert LineCount(" \n ") == 2 by {
      assert LineCount(" ") == 1;
      assert LineCount("\n ") == 1 + LineCount(" ");
    }
  }
}
