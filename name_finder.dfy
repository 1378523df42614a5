/**
  `line_profiler.autoprofile.eager_preimports.LoadedNameFinder`: the names an AST loads that are
  not parameters of an enclosing `def`, `async def` or `lambda`. The AST is reduced to what the
  visitor distinguishes: `Name` nodes with their context, function-like nodes with their
  parameters, and every other node with its children.
 */
module NameFinder {
  import opened Wrappers

  datatype ExprContext = Load | Store | Del

  datatype FunctionKind = FunctionDef | AsyncFunctionDef | Lambda

  /** `ast.arguments`, reduced to the parameter names. */
  datatype Arguments = Arguments(
    posonlyargs: seq<string>, args: seq<string>, kwonlyargs: seq<string>,
    vararg: Option<string>, kwarg: Option<string>)

  /**
    An AST node. The `children` of a function-like node are all its other sub-nodes
    (decorators, defaults, annotations and body), which `generic_visit` walks while the
    function's parameters are on the context stack.
   */
  datatype Node =
    | Name(id: string, ctx: ExprContext)
    | FunctionLike(kind: FunctionKind, arguments: Arguments, children: seq<Node>)
    | Other(children: seq<Node>)

  /** The parameter names a function-like node binds. */
  function ArgNames(a: Arguments): set<string>
  {
    (set x | x in a.posonlyargs + a.args + a.kwonlyargs)
    + (if a.vararg.Some? then {a.vararg.value} else {})
    + (if a.kwarg.Some? then {a.kwarg.value} else {})
  }

  /** `any(name in ctx for ctx in contexts)`. */
  predicate BoundIn(name: string, contexts: seq<set<string>>)
  {
    exists i :: 0 <= i < |contexts| && name in contexts[i]
  }

  /** Pushing a context keeps every name the stack already bound. */
  lemma BoundInPush(contexts: seq<set<string>>, top: set<string>)
    ensures forall x :: BoundIn(x, contexts) ==> BoundIn(x, contexts + [top])
  {
    forall x | BoundIn(x, contexts)
      ensures BoundIn(x, contexts + [top])
    {
      var i :| 0 <= i < |contexts| && x in contexts[i];
      assert (contexts + [top])[i] == contexts[i];
    }
  }

  /**
    The names the visitor adds for `node` when it starts with the context stack `contexts`; a
    name some context on the stack binds is never among them.
   */
  function LoadedIn(node: Node, contexts: seq<set<string>>): (r: set<string>)
    ensures forall x :: x in r ==> !BoundIn(x, contexts)
    decreases node
  {
    match node
    case Name(id, ctx) => if ctx == Load && !BoundIn(id, contexts) then {id} else {}
    case FunctionLike(_, arguments, children) =>
      BoundInPush(contexts, ArgNames(arguments));
      LoadedInAll(children, contexts + [ArgNames(arguments)])
    case Other(children) => LoadedInAll(children, contexts)
  }

  /** The names added for a list of sibling nodes, visited in order; none bound by the stack. */
  function LoadedInAll(nodes: seq<Node>, contexts: seq<set<string>>): (r: set<string>)
    ensures forall x :: x in r ==> !BoundIn(x, contexts)
    decreases nodes
  {
    if nodes == [] then {}
    else LoadedInAll(nodes[..|nodes| - 1], contexts) + LoadedIn(nodes[|nodes| - 1], contexts)
  }

  /**
    The reference reading of the class documentation: `x` occurs in `node` with the `Load`
    context somewhere no enclosing function binds it, given the names `bound` outside `node`.
   */
  ghost predicate LoadedFree(node: Node, x: string, bound: set<string>)
    decreases node
  {
    match node
    case Name(id, ctx) => id == x && ctx == Load && x !in bound
    case FunctionLike(_, arguments, children) =>
      exists i :: 0 <= i < |children| && LoadedFree(children[i], x, bound + ArgNames(arguments))
    case Other(children) =>
      exists i :: 0 <= i < |children| && LoadedFree(children[i], x, bound)
  }

  /** All the names bound by a context stack. */
  function Flatten(contexts: seq<set<string>>): (r: set<string>)
    ensures forall x :: x in r <==> BoundIn(x, contexts)
    decreases |contexts|
  {
    if contexts == [] then {}
    else
      var init := contexts[..|contexts| - 1];
      assert forall x :: BoundIn(x, contexts) <==> BoundIn(x, init) || x in contexts[|contexts| - 1] by {
        forall x | BoundIn(x, contexts) && x !in contexts[|contexts| - 1]
          ensures BoundIn(x, init)
        {
          var i :| 0 <= i < |contexts| && x in contexts[i];
          assert contexts[i] == init[i];
        }
        forall x | BoundIn(x, init)
          ensures BoundIn(x, contexts)
        {
          var i :| 0 <= i < |init| && x in init[i];
          assert contexts[i] == init[i];
        }
      }
      Flatten(init) + contexts[|contexts| - 1]
  }

  /**
    The visitor collects exactly the reference's names: a name is collected iff it has a `Load`
    occurrence bound neither by the starting stack nor by any enclosing function's parameters.
   */
  lemma {:induction false} LoadedInIsLoadedFree(node: Node, contexts: seq<set<string>>, x: string)
    ensures x in LoadedIn(node, contexts) <==> LoadedFree(node, x, Flatten(contexts))
    decreases node
  {
    match node
    case Name(id, ctx) =>
    case FunctionLike(_, arguments, children) =>
      var inner := contexts + [ArgNames(arguments)];
      assert Flatten(inner) == Flatten(contexts) + ArgNames(arguments) by {
        assert inner[..|inner| - 1] == contexts;
      }
      LoadedInAllIsLoadedFree(children, inner, x);
    case Other(children) =>
      LoadedInAllIsLoadedFree(children, contexts, x);
  }

  /** The same for a list of siblings: some sibling has a free `Load` occurrence. */
  lemma {:induction false} LoadedInAllIsLoadedFree(nodes: seq<Node>, contexts: seq<set<string>>, x: string)
    ensures x in LoadedInAll(nodes, contexts)
            <==> exists i :: 0 <= i < |nodes| && LoadedFree(nodes[i], x, Flatten(contexts))
    decreases nodes
  {
    if nodes != [] {
      var init := nodes[..|nodes| - 1];
      var last := nodes[|nodes| - 1];
      LoadedInAllIsLoadedFree(init, contexts, x);
      LoadedInIsLoadedFree(last, contexts, x);
      if exists i :: 0 <= i < |nodes| && LoadedFree(nodes[i], x, Flatten(contexts)) {
        var i :| 0 <= i < |nodes| && LoadedFree(nodes[i], x, Flatten(contexts));
        if i < |nodes| - 1 {
          assert init[i] == nodes[i];
        }
      }
      if exists i :: 0 <= i < |init| && LoadedFree(init[i], x, Flatten(contexts)) {
        var i :| 0 <= i < |init| && LoadedFree(init[i], x, Flatten(contexts));
        assert init[i] == nodes[i];
      }
    }
  }

  /** Names stored or deleted are never collected, and every collected name occurs in the tree. */
  lemma {:induction false} OnlyLoadedNames(node: Node, x: string)
    ensures x in LoadedIn(node, []) ==> LoadedFree(node, x, {})
    ensures node.Name? && node.ctx != Load ==> LoadedIn(node, []) == {}
  {
    LoadedInIsLoadedFree(node, [], x);
  }

  /** `ast.NodeVisitor` subclass collecting loaded names; `contexts` is the stack of parameter sets. */
  class LoadedNameFinder {
    var names: set<string>
    var contexts: seq<set<string>>

    constructor ()
      ensures names == {} && contexts == []
    {
      names := {};
      contexts := [];
    }

    /** `visit_Name`: a loaded name not bound by any context is added. */
    method VisitName(id: string, ctx: ExprContext)
      modifies this
      ensures contexts == old(contexts)
      ensures names == old(names) + LoadedIn(Name(id, ctx), old(contexts))
    {
      if ctx != Load {
        return;
      }
      if !(exists i :: 0 <= i < |contexts| && id in contexts[i]) {
        names := names + {id};
      }
    }

    /** `visit`: dispatch on the node type; function-like nodes push their parameters around `generic_visit`. */
    method Visit(node: Node)
      modifies this
      ensures contexts == old(contexts)
      ensures names == old(names) + LoadedIn(node, old(contexts))
      decreases node, 1
    {
      match node
      case Name(id, ctx) =>
        VisitName(id, ctx);
      case FunctionLike(_, arguments, children) =>
        var argNames := ArgNames(arguments);
        contexts := contexts + [argNames];
        GenericVisit(children);
        contexts := contexts[..|contexts| - 1];
      case Other(children) =>
        GenericVisit(children);
    }

    /** `generic_visit`: visit the children in order. */
    method GenericVisit(children: seq<Node>)
      modifies this
      ensures contexts == old(contexts)
      ensures names == old(names) + LoadedInAll(children, old(contexts))
      decreases children, 0
    {
      var i := 0;
      while i < |children|
        invariant 0 <= i <= |children|
        invariant contexts == old(contexts)
        invariant names == old(names) + LoadedInAll(children[..i], old(contexts))
      {
        Visit(children[i]);
        assert children[..i + 1][..i] == children[..i];
        i := i + 1;
      }
      assert children[..|children|] == children;
    }

    /** `LoadedNameFinder.find(node)`: run a fresh finder over `node` and return its names. */
    static method Find(node: Node) returns (names: set<string>)
      ensures names == LoadedIn(node, [])
      ensures forall x :: x in names <==> LoadedFree(node, x, {})
    {
      var finder := new LoadedNameFinder();
      finder.Visit(node);
      names := finder.names;
      forall x
        ensures x in names <==> LoadedFree(node, x, {})
      {
        LoadedInIsLoadedFree(node, [], x);
      }
    }
  }
}

/** The class doctest: the tree of a small module with nested functions and a lambda. */
module NameFinderExamples {
  import opened Wrappers
  import opened NameFinder

  /** `def bar(y, **z): pass` */
  const Bar: Node := FunctionLike(FunctionDef, Arguments([], ["y"], [], None, Some("z")), [Other([])])

  /** `return bar(x, **{**k, 'baz': foobar})` */
  const ReturnCall: Node :=
    Other([Other([Name("bar", Load), Name("x", Load),
                  Other([Other([Other([]), Name("k", Load), Name("foobar", Load)])])])])

  /** `def foo(x, **k): ...` */
  const Foo: Node := FunctionLike(FunctionDef, Arguments([], ["x"], [], None, Some("k")), [Bar, ReturnCall])

  /** `spam = lambda x, *y, **z: (x, y, z, a)` */
  const Spam: Node :=
    Other([Name("spam", Store),
           FunctionLike(Lambda, Arguments([], ["x"], [], Some("y"), Some("z")),
                        [Other([Name("x", Load), Name("y", Load), Name("z", Load), Name("a", Load)])])])

  /** `str('ham')` */
  const StrCall: Node := Other([Other([Name("str", Load), Other([])])])

  const DoctestModule: Node := Other([Foo, Spam, StrCall])

  lemma Siblings1(a: Node, ctx: seq<set<string>>)
    ensures LoadedInAll([a], ctx) == LoadedIn(a, ctx)
  {
    assert [a][..0] == [];
  }

  lemma Siblings2(a: Node, b: Node, ctx: seq<set<string>>)
    ensures LoadedInAll([a, b], ctx) == LoadedIn(a, ctx) + LoadedIn(b, ctx)
  {
    assert [a, b][..1] == [a];
    Siblings1(a, ctx);
  }

  lemma Siblings3(a: Node, b: Node, c: Node, ctx: seq<set<string>>)
    ensures LoadedInAll([a, b, c], ctx) == LoadedIn(a, ctx) + LoadedIn(b, ctx) + LoadedIn(c, ctx)
  {
    assert [a, b, c][..2] == [a, b];
    Siblings2(a, b, ctx);
  }

  lemma Siblings4(a: Node, b: Node, c: Node, d: Node, ctx: seq<set<string>>)
    ensures LoadedInAll([a, b, c, d], ctx)
            == LoadedIn(a, ctx) + LoadedIn(b, ctx) + LoadedIn(c, ctx) + LoadedIn(d, ctx)
  {
    assert [a, b, c, d][..3] == [a, b, c];
    Siblings3(a, b, c, ctx);
  }

  lemma ReturnCallLoads()
    ensures LoadedIn(ReturnCall, [{"x", "k"}]) == {"bar", "foobar"}
  {
    var ctx: seq<set<string>> := [{"x", "k"}];
    assert "x" in ctx[0] && "k" in ctx[0];
    assert !BoundIn("bar", ctx) && !BoundIn("foobar", ctx);
    var dict := Other([]);
    Siblings3(dict, Name("k", Load), Name("foobar", Load), ctx);
    Siblings1(dict, ctx);
    var kwargs := Other([dict, Name("k", Load), Name("foobar", Load)]);
    Siblings1(kwargs, ctx);
    var call := Other([Name("bar", Load), Name("x", Load), Other([kwargs])]);
    Siblings3(Name("bar", Load), Name("x", Load), Other([kwargs]), ctx);
    Siblings1(call, ctx);
  }

  lemma FooLoads()
    ensures LoadedIn(Foo, []) == {"bar", "foobar"}
  {
    assert ArgNames(Foo.arguments) == {"x", "k"};
    assert [] + [ArgNames(Foo.arguments)] == [{"x", "k"}];
    ReturnCallLoads();
    Siblings2(Bar, ReturnCall, [{"x", "k"}]);
    assert LoadedIn(Bar, [{"x", "k"}]) == {} by {
      Siblings1(Other([]), [{"x", "k"}, {"y", "z"}]);
      assert LoadedIn(Other([]), [{"x", "k"}, {"y", "z"}]) == {};
    }
  }

  lemma SpamLoads()
    ensures LoadedIn(Spam, []) == {"a"}
  {
    var lambda := Spam.children[1];
    assert ArgNames(lambda.arguments) == {"x", "y", "z"};
    var ctx: seq<set<string>> := [{"x", "y", "z"}];
    assert [] + [ArgNames(lambda.arguments)] == ctx;
    assert "x" in ctx[0] && "y" in ctx[0] && "z" in ctx[0];
    assert !BoundIn("a", ctx);
    var tuple := lambda.children[0];
    Siblings4(Name("x", Load), Name("y", Load), Name("z", Load), Name("a", Load), ctx);
    Siblings1(tuple, ctx);
    Siblings2(Name("spam", Store), lambda, []);
    assert LoadedIn(lambda, []) == LoadedInAll([tuple], ctx);
  }

  /** `LoadedNameFinder.find(ast.parse(module)) == {'bar', 'foobar', 'a', 'str'}`. */
  lemma DoctestLoads()
    ensures LoadedIn(DoctestModule, []) == {"bar", "foobar", "a", "str"}
  {
    FooLoads();
    SpamLoads();
    Siblings2(Name("str", Load), Other([]), []);
    Siblings1(StrCall.children[0], []);
    Siblings3(Foo, Spam, StrCall, []);
  }
}
