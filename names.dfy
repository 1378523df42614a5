/**
  `line_profiler.autoprofile.eager_preimports.propose_names`: an endless stream of candidate
  identifiers built from a list of prefixes, modelled by the function `Nth` giving its `n`-th
  element, and the search `next(name for name in propose_names(...) if name not in forbidden)`.
 */
module NameProposals {
  import opened Wrappers
  import opened Strings
  import opened DottedPaths

  /** `list(dict.fromkeys(xs))`: the distinct elements of `xs`, in order of first occurrence. */
  function Dedup(xs: seq<string>): seq<string>
    decreases |xs|
  {
    if xs == [] then []
    else
      var d := Dedup(xs[..|xs| - 1]);
      if xs[|xs| - 1] in d then d else d + [xs[|xs| - 1]]
  }

  /** The position of the first occurrence of `x` in `xs`. */
  function FirstIndex(xs: seq<string>, x: string): (i: nat)
    requires x in xs
    ensures i < |xs| && xs[i] == x
    ensures forall j :: 0 <= j < i ==> xs[j] != x
    decreases |xs|
  {
    if x in xs[..|xs| - 1] then FirstIndex(xs[..|xs| - 1], x) else |xs| - 1
  }

  /**
    `dict.fromkeys` keeps every element once: the result has no repetition, the same elements,
    and lists them in the order of their first occurrences.
   */
  lemma {:induction false} DedupSpec(xs: seq<string>)
    ensures forall i, j :: 0 <= i < j < |Dedup(xs)| ==> Dedup(xs)[i] != Dedup(xs)[j]
    ensures forall x :: x in Dedup(xs) <==> x in xs
    ensures forall i, j :: 0 <= i < j < |Dedup(xs)| ==>
              FirstIndex(xs, Dedup(xs)[i]) < FirstIndex(xs, Dedup(xs)[j])
    decreases |xs|
  {
    if xs != [] {
      var init := xs[..|xs| - 1];
      var x := xs[|xs| - 1];
      DedupSpec(init);
      assert xs == init + [x];
      var d := Dedup(init);
      forall y | y in init
        ensures FirstIndex(xs, y) == FirstIndex(init, y)
      {
        assert xs[..|xs| - 1] == init;
      }
      if x !in d {
        assert Dedup(xs) == d + [x];
        assert FirstIndex(xs, x) == |xs| - 1 by {
          assert xs[..|xs| - 1] == init;
        }
      }
    }
  }

  /** A list without repetition is its own deduplication. */
  lemma {:induction false} DedupDistinct(xs: seq<string>)
    requires forall i, j :: 0 <= i < j < |xs| ==> xs[i] != xs[j]
    ensures Dedup(xs) == xs
    decreases |xs|
  {
    if xs != [] {
      var init := xs[..|xs| - 1];
      DedupDistinct(init);
      DedupSpec(init);
      assert xs == init + [xs[|xs| - 1]];
    }
  }

  datatype NameError = TypeError

  /**
    The prefixes `propose_names(prefixes)` works from: deduplicated, each a dot-free dotted path.
    On success they are single chunks (identifiers that are not keywords), each given prefix
    occurs, and none occurs twice.
   */
  function Prefixes(prefixes: seq<string>): (r: Result<seq<string>, NameError>)
    ensures r.Success? ==>
      && AllChunks(r.value)
      && (forall x :: x in r.value <==> x in prefixes)
      && (forall i, j :: 0 <= i < j < |r.value| ==> r.value[i] != r.value[j])
  {
    var ps := Dedup(prefixes);
    DedupSpec(prefixes);
    AllDotFreeDotted(ps);
    if forall k :: 0 <= k < |ps| ==> IsDotted(ps[k]) && '.' !in ps[k] then Success(ps)
    else Failure(NameError.TypeError)
  }

  /** The elements of the deduplication are those of the list. */
  lemma DedupElements(xs: seq<string>)
    ensures forall x :: x in Dedup(xs) <==> x in xs
  {
    DedupSpec(xs);
  }

  /** A dot-free dotted path is exactly a single chunk. */
  lemma DotFreeDottedIsChunk(p: string)
    ensures IsDotted(p) && '.' !in p <==> IsChunk(p)
  {
    if '.' !in p {
      SplitNoSep(p, '.');
    }
    if IsChunk(p) {
      ChunksHaveNoPeriod([p]);
      assert [p][0] == p;
      SplitNoSep(p, '.');
      assert ValidChunks([p]);
    }
  }

  /** Every element of `xs` is a single chunk. */
  predicate AllChunks(xs: seq<string>)
  {
    forall k :: 0 <= k < |xs| ==> IsChunk(xs[k])
  }

  /** The check `propose_names` makes on every prefix is that it is a single chunk. */
  lemma AllDotFreeDotted(ps: seq<string>)
    ensures (forall k :: 0 <= k < |ps| ==> IsDotted(ps[k]) && '.' !in ps[k]) <==> AllChunks(ps)
  {
    forall k | 0 <= k < |ps|
      ensures (IsDotted(ps[k]) && '.' !in ps[k]) <==> IsChunk(ps[k])
    {
      DotFreeDottedIsChunk(ps[k]);
    }
  }

  /**
    `propose_names` raises `TypeError` exactly when some prefix is not an identifier or is a
    keyword; otherwise it works from the deduplicated list.
   */
  lemma PrefixesValid(prefixes: seq<string>)
    ensures Prefixes(prefixes).Success? <==> AllChunks(prefixes)
    ensures Prefixes(prefixes).Success? ==> Prefixes(prefixes).value == Dedup(prefixes)
  {
    var ps := Dedup(prefixes);
    AllDotFreeDotted(ps);
    DedupElements(prefixes);
    if AllChunks(ps) {
      forall k | 0 <= k < |prefixes|
        ensures IsChunk(prefixes[k])
      {
        assert prefixes[k] in ps;
        var j :| 0 <= j < |ps| && ps[j] == prefixes[k];
      }
    }
    if AllChunks(prefixes) {
      forall k | 0 <= k < |ps|
        ensures IsChunk(ps[k])
      {
        assert ps[k] in prefixes;
        var j :| 0 <= j < |prefixes| && prefixes[j] == ps[k];
      }
    }
  }

  /** `str(i)` appended to `p`: directly after a one-character prefix, after `_` otherwise. */
  function Suffixed(p: string, i: nat): string
  {
    if |p| == 1 then p + NatToString(i) else p + "_" + NatToString(i)
  }

  /** Position `n` of the suffixed part of the stream, as (round, index of the prefix in the round). */
  function Position(n: nat, width: nat): (r: (nat, nat))
    requires width >= 1
    ensures r.1 < width && n == width * r.0 + r.1
    decreases n
  {
    if n < width then (0, n)
    else
      var (round, j) := Position(n - width, width);
      (round + 1, j)
  }

  lemma {:induction false} MulAtLeast(w: int, d: int)
    requires w > 0 && d >= 1
    ensures w * d >= w
    decreases d
  {
    if d > 1 {
      MulAtLeast(w, d - 1);
      assert w * d == w * (d - 1) + w;
    }
  }

  /** `a == w * q + r` with `r` below `w` is Euclidean division: `q == a / w` and `r == a % w`. */
  lemma DivModUnique(a: int, w: int, q: int, r: int)
    requires w > 0 && 0 <= r < w && a == w * q + r
    ensures a / w == q && a % w == r
  {
    var d := q - a / w;
    assert w * d == a % w - r;
    if d >= 1 {
      MulAtLeast(w, d);
    }
  }

  /** The stream position in rounds of `width` is quotient and remainder. */
  lemma PositionIsDivMod(n: nat, width: nat)
    requires width >= 1
    ensures Position(n, width) == (n / width, n % width)
  {
    var (q, j) := Position(n, width);
    DivModUnique(n, width, q, j);
  }

  /** Whose turn position `n` is among `width` prefixes taking turns. */
  function Turn(n: nat, width: nat): (j: nat)
    requires width >= 1
    ensures j < width
    decreases n
  {
    if n < width then n else Turn(n - width, width)
  }

  /** The prefix index of a stream position is its turn. */
  lemma {:induction false} PositionTurn(n: nat, width: nat)
    requires width >= 1
    ensures Position(n, width).1 == Turn(n, width)
    decreases n
  {
    if n >= width {
      PositionTurn(n - width, width);
    }
  }

  /** The turn of position `n` is `n % width`. */
  lemma TurnIsMod(n: nat, width: nat)
    requires width >= 1
    ensures Turn(n, width) == n % width
  {
    PositionTurn(n, width);
    PositionIsDivMod(n, width);
  }

  /**
    The `n`-th name yielded: first every prefix as it is, then, round after round, every prefix
    with the round number as suffix; so the prefixes take turns, and the `n`-th name starts with
    the prefix whose turn it is (`Turn(n, |ps|)`, which is `n % |ps|`).
   */
  function Nth(ps: seq<string>, n: nat): (r: string)
    requires |ps| >= 1
    ensures ps[Turn(n, |ps|)] <= r
  {
    if n < |ps| then ps[n]
    else
      var (round, j) := Position(n - |ps|, |ps|);
      PositionTurn(n - |ps|, |ps|);
      var r := Suffixed(ps[j], round);
      assert r[..|ps[j]|] == ps[j];
      r
  }

  /** Position `width * round + j` is prefix `j` of round `round`. */
  lemma {:induction false} PositionOf(width: nat, round: nat, j: nat)
    requires j < width
    ensures Position(width * round + j, width) == (round, j)
    decreases round
  {
    if round > 0 {
      assert width * round + j - width == width * (round - 1) + j;
      PositionOf(width, round - 1, j);
    }
  }

  /** Round `i` (counting from 0) yields `ps[j]` suffixed with `i` at position `|ps| * (i + 1) + j`. */
  lemma NthRound(ps: seq<string>, i: nat, j: nat)
    requires 0 <= j < |ps|
    ensures Nth(ps, |ps| * (i + 1) + j) == Suffixed(ps[j], i)
  {
    assert |ps| * (i + 1) + j - |ps| == |ps| * i + j;
    PositionOf(|ps|, i, j);
  }

  /** Every name yielded from valid prefixes is a Python identifier that starts with its prefix. */
  lemma NthIsIdentifier(ps: seq<string>, n: nat)
    requires |ps| >= 1 && AllChunks(ps)
    ensures IsIdentifier(Nth(ps, n))
    ensures var p := ps[if n < |ps| then n else Position(n - |ps|, |ps|).1];
            |p| <= |Nth(ps, n)| && Nth(ps, n)[..|p|] == p
  {
    if n >= |ps| {
      var (i, j) := Position(n - |ps|, |ps|);
      var p := ps[j];
      assert IsIdentifier(p);
      var r := Suffixed(p, i);
      forall k | 1 <= k < |r|
        ensures IsIdentContinue(r[k])
      {
        if k >= |p| {
          assert r[k] == '_' || '0' <= r[k] <= '9';
        }
      }
      assert r[..|p|] == p;
    }
  }

  /** Position `n` is at least in round `rounds` once `n >= width * rounds`. */
  lemma {:induction false} RoundAtLeast(n: nat, width: nat, rounds: nat)
    requires width >= 1 && n >= width * rounds
    ensures Position(n, width).0 >= rounds
    decreases rounds
  {
    if rounds > 0 {
      assert width * rounds == width * (rounds - 1) + width;
      RoundAtLeast(n - width, width, rounds - 1);
    }
  }

  /** Names from round `10^k` on are longer than `k` characters. */
  lemma NthLength(ps: seq<string>, n: nat, k: nat)
    requires |ps| >= 1
    requires n >= |ps| * (Pow10(k) + 1)
    ensures |Nth(ps, n)| > k
  {
    LateRound(|ps|, n, Pow10(k));
    var (round, j) := Position(n - |ps|, |ps|);
    NatToStringLength(round, k);
    assert Nth(ps, n) == Suffixed(ps[j], round);
  }

  /** Position `n >= width * (rounds + 1)` of the stream is in the suffixed part, at least in round `rounds`. */
  lemma LateRound(width: nat, n: nat, rounds: nat)
    requires width >= 1 && n >= width * (rounds + 1)
    ensures n >= width && Position(n - width, width).0 >= rounds
  {
    assert width * (rounds + 1) == width * rounds + width;
    RoundAtLeast(n - width, width, rounds);
  }

  /** An upper bound on the lengths of the strings in a set. */
  ghost function MaxLength(s: set<string>): (m: nat)
    ensures forall x :: x in s ==> |x| <= m
  {
    if s == {} then 0
    else
      var x :| x in s;
      var rest := MaxLength(s - {x});
      if |x| > rest then |x| else rest
  }

  /** How far along the stream a name outside `forbidden` is sure to come up. */
  ghost function FreeBound(ps: seq<string>, forbidden: set<string>): nat
  {
    |ps| * (Pow10(MaxLength(forbidden)) + 1)
  }

  /** The name at `|ps| * (round + 1) + j` is prefix `j` suffixed with `round`, and it is free if past the bound. */
  lemma StreamStep(ps: seq<string>, forbidden: set<string>, round: nat, j: nat, index: nat)
    requires j < |ps| && index == |ps| * (round + 1) + j
    ensures Nth(ps, index) == Suffixed(ps[j], round)
    ensures index >= FreeBound(ps, forbidden) ==> Nth(ps, index) !in forbidden
  {
    NthRound(ps, round, j);
    if index >= FreeBound(ps, forbidden) {
      NthLength(ps, index, MaxLength(forbidden));
    }
  }

  /** The first `index` names of the stream are all forbidden. */
  predicate AllTaken(ps: seq<string>, forbidden: set<string>, index: nat)
    requires |ps| >= 1
  {
    forall m :: 0 <= m < index ==> Nth(ps, m) in forbidden
  }

  /** One more forbidden name extends the forbidden run of the stream. */
  lemma AllTakenStep(ps: seq<string>, forbidden: set<string>, index: nat)
    requires |ps| >= 1 && AllTaken(ps, forbidden, index) && Nth(ps, index) in forbidden
    ensures AllTaken(ps, forbidden, index + 1)
  {
  }

  /** `name` is what `next(name for name in propose_names(ps) if name not in forbidden)` gives. */
  ghost predicate IsFirstFree(ps: seq<string>, forbidden: set<string>, name: string)
    requires |ps| >= 1
  {
    exists i: nat :: Nth(ps, i) == name && name !in forbidden && AllTaken(ps, forbidden, i)
  }

  /** The search has one answer: two first free names are the same name. */
  lemma FirstFreeUnique(ps: seq<string>, forbidden: set<string>, a: string, b: string)
    requires |ps| >= 1 && IsFirstFree(ps, forbidden, a) && IsFirstFree(ps, forbidden, b)
    ensures a == b
  {
  }

  /** The position and name `FirstFree` returns are those of the first free name. */
  lemma FirstFreeFound(ps: seq<string>, forbidden: set<string>, name: string, index: nat)
    requires |ps| >= 1 && name == Nth(ps, index) && name !in forbidden
    requires forall m :: 0 <= m < index ==> Nth(ps, m) in forbidden
    ensures IsFirstFree(ps, forbidden, name)
  {
    assert AllTaken(ps, forbidden, index);
  }

  /**
    `next(name for name in propose_names(ps) if name not in forbidden)` for validated,
    non-empty `ps`: the generator's loops run until a name outside `forbidden` comes up; that
    name and its position in the stream are returned.
   */
  method FirstFree(ps: seq<string>, forbidden: set<string>) returns (name: string, index: nat)
    requires |ps| >= 1
    ensures name == Nth(ps, index) && name !in forbidden
    ensures forall m :: 0 <= m < index ==> Nth(ps, m) in forbidden
  {
    ghost var bound := FreeBound(ps, forbidden);
    index := 0;
    while index < |ps|
      invariant index <= |ps|
      invariant AllTaken(ps, forbidden, index)
    {
      if ps[index] !in forbidden {
        return ps[index], index;
      }
      index := index + 1;
    }
    var round := 0;
    while true
      invariant index == |ps| * (round + 1) && index <= bound
      invariant AllTaken(ps, forbidden, index)
      decreases bound - index
    {
      var found;
      found, name, index := FreeInRound(ps, forbidden, round, index);
      if found {
        return;
      }
      assert |ps| * (round + 2) == |ps| * (round + 1) + |ps|;
      round := round + 1;
    }
  }

  /**
    One pass of the generator's inner loop: every prefix suffixed with `round`, in order, from
    position `start`, until a name outside `forbidden` comes up.
   */
  method FreeInRound(ps: seq<string>, forbidden: set<string>, round: nat, start: nat)
    returns (found: bool, name: string, index: nat)
    requires |ps| >= 1 && start == |ps| * (round + 1)
    requires AllTaken(ps, forbidden, start)
    ensures AllTaken(ps, forbidden, index)
    ensures found ==> name == Nth(ps, index) && name !in forbidden
    ensures !found ==> index == start + |ps| && index <= FreeBound(ps, forbidden)
  {
    ghost var bound := FreeBound(ps, forbidden);
    index := start;
    name := "";
    var j := 0;
    while j < |ps|
      invariant j <= |ps| && index == start + j
      invariant j == 0 || index <= bound
      invariant AllTaken(ps, forbidden, index)
    {
      var candidate := Suffixed(ps[j], round);
      StreamStep(ps, forbidden, round, j, index);
      if candidate !in forbidden {
        return true, candidate, index;
      }
      AllTakenStep(ps, forbidden, index);
      index := index + 1;
      j := j + 1;
    }
    return false, name, index;
  }
}

/** The documented stream of `propose_names(['func', 'f', 'foo'])`. */
module NameProposalsExamples {
  import opened Strings
  import opened NameProposals

  const FuncPrefixes: seq<string> := ["func", "f", "foo"]

  lemma Round0()
    ensures Nth(FuncPrefixes, 3) == "func_0" && Nth(FuncPrefixes, 4) == "f0" && Nth(FuncPrefixes, 5) == "foo_0"
  {
    NthRound(FuncPrefixes, 0, 0);
    NthRound(FuncPrefixes, 0, 1);
    NthRound(FuncPrefixes, 0, 2);
    assert NatToString(0) == "0";
  }

  lemma Round1()
    ensures Nth(FuncPrefixes, 6) == "func_1" && Nth(FuncPrefixes, 7) == "f1" && Nth(FuncPrefixes, 8) == "foo_1"
  {
    NthRound(FuncPrefixes, 1, 0);
    NthRound(FuncPrefixes, 1, 1);
    NthRound(FuncPrefixes, 1, 2);
    assert NatToString(1) == "1";
  }

  /** The first ten names: the prefixes, then rounds 0 and 1, then the start of round 2. */
  lemma ProposeNamesDoctest()
    ensures Nth(FuncPrefixes, 0) == "func" && Nth(FuncPrefixes, 1) == "f" && Nth(FuncPrefixes, 2) == "foo"
    ensures Nth(FuncPrefixes, 3) == "func_0" && Nth(FuncPrefixes, 4) == "f0" && Nth(FuncPrefixes, 5) == "foo_0"
    ensures Nth(FuncPrefixes, 6) == "func_1" && Nth(FuncPrefixes, 7) == "f1" && Nth(FuncPrefixes, 8) == "foo_1"
    ensures Nth(FuncPrefixes, 9) == "func_2"
  {
    Round0();
    Round1();
    NthRound(FuncPrefixes, 2, 0);
    assert NatToString(2) == "2";
  }
}
