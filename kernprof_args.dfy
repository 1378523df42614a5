/**
  kernprof's command-line helpers: the pre-parser that cuts `-m <module>` (or another
  single-argument flag) out of the argument list before option parsing, with `sep` (`"--"`)
  as a barrier after which the flag is never consumed; and the default output-file name.
 */
module KernprofArgs {
  import opened Wrappers
  import Strings

  /** `list.index(x)`: the first position of `x`, or `None` where Python raises `ValueError`. */
  function IndexOf<T(==)>(s: seq<T>, x: T): (r: Option<nat>)
    ensures r.None? <==> x !in s
    ensures r.Some? ==> r.value < |s| && s[r.value] == x && x !in s[..r.value]
  {
    if s == [] then None
    else if s[0] == x then Some(0)
    else match IndexOf(s[1..], x)
      case None => None
      case Some(i) =>
        assert s[1..][..i] == s[1..i + 1];
        Some(i + 1)
  }

  /** `IndexOf` finds the first occurrence. */
  lemma IndexOfAt<T>(s: seq<T>, x: T, i: nat)
    requires i < |s| && s[i] == x && x !in s[..i]
    ensures IndexOf(s, x) == Some(i)
  {
  }

  /** The exceptions the pre-parser raises. */
  datatype ParseError<T> =
    | MissingArgument(flag: T)  // `ValueError: argument expected for the <flag> option`
    | AssertionFailed                // the `assert not pre_post` of the separator branch

  /** The triple `(pre, arg, post)` returned by the pre-parser. */
  datatype Parsed<T> = Parsed(pre: seq<T>, arg: Option<T>, post: seq<T>)

  /** The branch without a separator: cut at the first `flag`, which must not be last. */
  function FlagSplit<T(==)>(args: seq<T>, flag: T): Result<Parsed<T>, ParseError<T>>
  {
    match IndexOf(args, flag)
    case None => Success(Parsed(args, None, []))
    case Some(i) =>
      if i == |args| - 1 then Failure(MissingArgument(flag))
      else Success(Parsed(args[..i], Some(args[i + 1]), args[i + 2..]))
  }

  /** Combines the result for the part before the separator with the part after it. */
  function Rejoin<T>(inner: Result<Parsed<T>, ParseError<T>>, sep: T, post: seq<T>): Result<Parsed<T>, ParseError<T>>
  {
    match inner
    case Failure(e) => Failure(e)
    case Success(p) =>
      if p.arg.None? then
        if p.post != [] then Failure(AssertionFailed)
        else Success(Parsed(p.pre + [sep], None, post))
      else Success(Parsed(p.pre, p.arg, p.post + [sep] + post))
  }

  /** The flag and its argument put back between the two other parts. */
  function Reassemble<T>(p: Parsed<T>, flag: T): seq<T>
  {
    p.pre + (if p.arg.Some? then [flag, p.arg.value] else []) + p.post
  }

  /** `FlagSplit` loses and reorders nothing. */
  lemma FlagSplitRoundTrip<T>(args: seq<T>, flag: T)
    ensures FlagSplit(args, flag).Success? ==> Reassemble(FlagSplit(args, flag).value, flag) == args
  {
    match IndexOf(args, flag)
    case None =>
      assert args + [] + [] == args;
    case Some(i) =>
      if i < |args| - 1 {
        SpliceTwo(args, i, flag);
      }
  }

  /** `Rejoin` puts the separator back between the two parts it was given. */
  lemma RejoinRoundTrip<T>(inner: Result<Parsed<T>, ParseError<T>>, flag: T, pre: seq<T>, sep: T, post: seq<T>)
    requires inner.Success? ==> Reassemble(inner.value, flag) == pre
    ensures Rejoin(inner, sep, post).Success? ==> Reassemble(Rejoin(inner, sep, post).value, flag) == pre + [sep] + post
  {
    if inner.Success? {
      var p := inner.value;
      if p.arg.None? && p.post == [] {
        assert pre == p.pre + [] + [];
        assert Reassemble(Parsed(p.pre + [sep], None, post), flag) == p.pre + [sep] + [] + post;
      } else if p.arg.Some? {
        var mid := [flag, p.arg.value];
        assert Reassemble(Parsed(p.pre, p.arg, p.post + [sep] + post), flag)
               == (p.pre + mid + p.post) + [sep] + post;
      }
    }
  }

  /** Cutting `args` at the separator at `i` and putting it back. */
  lemma SplitAtSeparator<T>(args: seq<T>, i: nat, sep: T)
    requires i < |args| && args[i] == sep
    ensures args[..i] + [sep] + args[i + 1..] == args
  {
    assert args[i..] == [sep] + args[i + 1..];
    assert args == args[..i] + args[i..];
  }

  /**
    `pre_parse_single_arg_directive` as written: the recursive call on the part before the
    separator passes only `flag`, so it splits that part at the default separator `"--"`.
    Even so, a successful result loses and reorders nothing.
   */
  function PreParseAsWritten(args: seq<string>, flag: string, sep: string): (r: Result<Parsed<string>, ParseError<string>>)
    ensures r.Success? ==> Reassemble(r.value, flag) == args
    decreases |args|
  {
    match IndexOf(args, sep)
    case Some(i) =>
      var inner := PreParseAsWritten(args[..i], flag, "--");
      RejoinRoundTrip(inner, flag, args[..i], sep, args[i + 1..]);
      SplitAtSeparator(args, i, sep);
      Rejoin(inner, sep, args[i + 1..])
    case None =>
      FlagSplitRoundTrip(args, flag);
      FlagSplit(args, flag)
  }

  /**
    `pre_parse_single_arg_directive` with `sep` passed on to the recursive call: on success
    `pre + [flag, arg] + post` (or `pre + post` when no flag was taken) is the input list.
   */
  function PreParse<T(==)>(args: seq<T>, flag: T, sep: T): (r: Result<Parsed<T>, ParseError<T>>)
    ensures r.Success? ==> Reassemble(r.value, flag) == args
    decreases |args|
  {
    match IndexOf(args, sep)
    case Some(i) =>
      var inner := PreParse(args[..i], flag, sep);
      RejoinRoundTrip(inner, flag, args[..i], sep, args[i + 1..]);
      SplitAtSeparator(args, i, sep);
      Rejoin(inner, sep, args[i + 1..])
    case None =>
      FlagSplitRoundTrip(args, flag);
      FlagSplit(args, flag)
  }

  /** The end of the scanned segment: the first separator, or the end of the list. */
  function ScanEnd<T(==)>(args: seq<T>, sep: T): (k: nat)
    ensures k <= |args| && sep !in args[..k]
    ensures k < |args| <==> sep in args
    ensures k < |args| ==> args[k] == sep
  {
    match IndexOf(args, sep)
    case None => |args|
    case Some(i) => i
  }

  /**
    The documented behaviour, stated without recursion: only the first `flag` before the first
    separator is consumed; it is an error when it ends the scanned segment; with no such flag the
    separator stays at the end of the first part.
   */
  function Directive<T(==)>(args: seq<T>, flag: T, sep: T): Result<Parsed<T>, ParseError<T>>
  {
    var k := ScanEnd(args, sep);
    match IndexOf(args[..k], flag)
    case Some(i) =>
      if i == k - 1 then Failure(MissingArgument(flag))
      else Success(Parsed(args[..i], Some(args[i + 1]), args[i + 2..]))
    case None =>
      if k < |args| then Success(Parsed(args[..k] + [sep], None, args[k + 1..]))
      else Success(Parsed(args, None, []))
  }

  /** The pre-parser (with `sep` passed on) does exactly what `Directive` states. */
  lemma {:induction false} PreParseIsDirective<T>(args: seq<T>, flag: T, sep: T)
    ensures PreParse(args, flag, sep) == Directive(args, flag, sep)
  {
    match IndexOf(args, sep)
    case None =>
      assert args[..|args|] == args;
    case Some(k) =>
      var pre := args[..k];
      assert IndexOf(pre, sep).None?;
      assert PreParse(pre, flag, sep) == FlagSplit(pre, flag);
      RejoinFlagSplit(args, flag, sep, k);
  }

  /** The pre-parser's result when the separator is at `k`: the flag split of the part before it, rejoined. */
  lemma RejoinFlagSplit<T>(args: seq<T>, flag: T, sep: T, k: nat)
    requires k < |args| && args[k] == sep && sep !in args[..k]
    ensures Rejoin(FlagSplit(args[..k], flag), sep, args[k + 1..]) == Directive(args, flag, sep)
  {
    var pre := args[..k];
    assert ScanEnd(args, sep) == k;
    match IndexOf(pre, flag)
    case None =>
    case Some(i) =>
      if i < k - 1 {
        assert pre[..i] == args[..i];
        RejoinAroundSeparator(args, sep, i + 2, k);
      }
  }

  /** Cutting out the separator at `k` and putting it back leaves the tail from `j` unchanged. */
  lemma RejoinAroundSeparator<T>(args: seq<T>, sep: T, j: nat, k: nat)
    requires j <= k < |args| && args[k] == sep
    ensures args[..k][j..] + [sep] + args[k + 1..] == args[j..]
  {
    assert args[j..] == args[j..k] + args[k..];
    assert args[k..] == [sep] + args[k + 1..];
  }

  /** `Directive` when the flag comes, with a value, before the first separator. */
  lemma DirectiveFlagFirst<T>(args: seq<T>, flag: T, sep: T, k: nat, i: nat)
    requires ScanEnd(args, sep) == k && IndexOf(args[..k], flag) == Some(i) && i + 1 < k
    ensures Directive(args, flag, sep) == Success(Parsed(args[..i], Some(args[i + 1]), args[i + 2..]))
  {
  }

  /** For the default separator (the only one kernprof's `main` uses) both versions agree. */
  lemma {:induction false} AsWrittenAgreesOnDefault(args: seq<string>, flag: string)
    ensures PreParseAsWritten(args, flag, "--") == PreParse(args, flag, "--")
  {
    match IndexOf(args, "--")
    case None =>
      BothFlagSplit(args, flag);
    case Some(k) =>
      BothAtSeparator(args, flag, k);
      BothFlagSplit(args[..k], flag);
  }

  /** At the first `"--"` both versions rejoin their result for the part before it. */
  lemma BothAtSeparator(args: seq<string>, flag: string, k: nat)
    requires IndexOf(args, "--") == Some(k)
    ensures PreParseAsWritten(args, flag, "--") == Rejoin(PreParseAsWritten(args[..k], flag, "--"), "--", args[k + 1..])
    ensures PreParse(args, flag, "--") == Rejoin(PreParse(args[..k], flag, "--"), "--", args[k + 1..])
  {
  }

  /** Without a separator both versions are the flag split. */
  lemma BothFlagSplit(args: seq<string>, flag: string)
    requires "--" !in args
    ensures PreParseAsWritten(args, flag, "--") == FlagSplit(args, flag)
    ensures PreParse(args, flag, "--") == FlagSplit(args, flag)
  {
    assert IndexOf(args, "--").None?;
  }

  /** The documented behaviour loses and reorders nothing either. */
  lemma {:induction false} DirectiveRoundTrip<T>(args: seq<T>, flag: T, sep: T)
    requires Directive(args, flag, sep).Success?
    ensures Reassemble(Directive(args, flag, sep).value, flag) == args
  {
    var k := ScanEnd(args, sep);
    match IndexOf(args[..k], flag)
    case Some(i) =>
      assert args[..k][i] == flag;
      SpliceTwo(args, i, flag);
    case None =>
      if k < |args| {
        SpliceOne(args, k, sep);
      } else {
        assert args + [] + [] == args;
      }
  }

  /** Taking out `args[i]` (known to be `x`) and its successor and putting them back. */
  lemma SpliceTwo<T>(args: seq<T>, i: nat, x: T)
    requires i + 1 < |args| && args[i] == x
    ensures args[..i] + [x, args[i + 1]] + args[i + 2..] == args
  {
    assert args[i..] == [x, args[i + 1]] + args[i + 2..];
    assert args == args[..i] + args[i..];
  }

  /** Taking out `args[k]` (known to be `x`) and putting it back. */
  lemma SpliceOne<T>(args: seq<T>, k: nat, x: T)
    requires k < |args| && args[k] == x
    ensures args[..k] + [x] + [] + args[k + 1..] == args
  {
    assert args[k..] == [x] + args[k + 1..];
    assert args == args[..k] + args[k..];
  }

  /**
    Only a flag before the first separator is consumed, and it is the first one: the first part
    never holds the flag, nor (when a value was taken) the separator.
   */
  lemma {:induction false} PreParseFirstFlagBeforeBarrier<T>(args: seq<T>, flag: T, sep: T)
    requires PreParse(args, flag, sep).Success?
    ensures var p := PreParse(args, flag, sep).value;
      && flag !in p.pre[..|p.pre| - (if p.arg.None? && sep in args then 1 else 0)]
      && (p.arg.Some? ==> sep !in p.pre && |p.pre| + 1 < ScanEnd(args, sep))
  {
    PreParseIsDirective(args, flag, sep);
    var k := ScanEnd(args, sep);
    match IndexOf(args[..k], flag)
    case Some(i) =>
      assert args[..i] == args[..k][..i];
    case None =>
      if k < |args| {
        assert (args[..k] + [sep])[..k] == args[..k];
      } else {
        assert args[..|args|] == args;
      }
  }

  /**
    With no flag before the first separator, the result is the part before it with the
    separator appended, no value, and the rest; with no separator and no flag, the whole list.
   */
  lemma {:induction false} PreParseNoFlag<T>(args: seq<T>, flag: T, sep: T)
    requires flag !in args[..ScanEnd(args, sep)]
    ensures sep in args ==>
      PreParse(args, flag, sep) == Success(Parsed(args[..ScanEnd(args, sep)] + [sep], None, args[ScanEnd(args, sep) + 1..]))
    ensures sep !in args ==> PreParse(args, flag, sep) == Success(Parsed(args, None, []))
  {
    PreParseIsDirective(args, flag, sep);
  }

  /** `Directive` fails exactly when the first flag of the scanned segment is its last element. */
  lemma {:induction false} DirectiveErrorCase<T>(args: seq<T>, flag: T, sep: T)
    ensures Directive(args, flag, sep).Failure?
            <==> (flag in args[..ScanEnd(args, sep)] && IndexOf(args, flag).value + 1 == ScanEnd(args, sep))
    ensures Directive(args, flag, sep).Failure? ==> Directive(args, flag, sep).error == MissingArgument(flag)
  {
    var k := ScanEnd(args, sep);
    match IndexOf(args[..k], flag)
    case Some(i) =>
      assert args[..k][..i] == args[..i];
      assert IndexOf(args, flag) == Some(i) by {
        assert flag !in args[..i];
      }
    case None =>
  }

  /** The pre-parser fails exactly when the first flag of the scanned segment is its last element. */
  lemma {:induction false} PreParseErrorCase<T>(args: seq<T>, flag: T, sep: T)
    ensures PreParse(args, flag, sep).Failure?
            <==> (flag in args[..ScanEnd(args, sep)] && IndexOf(args, flag).value + 1 == ScanEnd(args, sep))
    ensures PreParse(args, flag, sep).Failure? ==> PreParse(args, flag, sep).error == MissingArgument(flag)
  {
    PreParseIsDirective(args, flag, sep);
    DirectiveErrorCase(args, flag, sep);
  }

  // ----- default output file -----

  /** `os.path.basename(path)`: the part after the last `/`. */
  function Basename(path: string): (r: string)
    ensures |r| <= |path| && r == path[|path| - |r|..]
    ensures '/' !in r
    ensures |r| < |path| ==> path[|path| - |r| - 1] == '/'
  {
    if path == [] then []
    else if path[|path| - 1] == '/' then []
    else Basename(path[..|path| - 1]) + [path[|path| - 1]]
  }

  /**
    The output file of kernprof's `main`: the `--outfile` value if one was given (and not
    empty), otherwise the script's (or module's) base name plus `.lprof` in line-by-line mode and
    `.prof` otherwise. It is never empty, and a directory part comes only from `--outfile`.
   */
  function Outfile(outfile: Option<string>, script: string, lineByLine: bool): (r: string)
    ensures r != ""
    ensures (exists k :: 0 <= k < |r| && r[k] == '/') ==> outfile.Some? && r == outfile.value
  {
    if outfile.Some? && outfile.value != "" then outfile.value
    else
      NoSlashInDefault(Basename(script), lineByLine);
      DefaultName(Basename(script), lineByLine)
  }

  /** The default output name for the base name `b`. */
  function DefaultName(b: string, lineByLine: bool): string
  {
    b + "." + (if lineByLine then "lprof" else "prof")
  }

  /** Neither default name adds a `/` to a base name. */
  lemma NoSlashInDefault(b: string, lineByLine: bool)
    requires '/' !in b
    ensures '/' !in DefaultName(b, lineByLine)
  {
    if lineByLine { LprofName(b); } else { ProfName(b); }
  }

  /**
    Without an explicit output file, the name lies in the current directory, starts with the
    script's base name and ends in `.lprof` exactly in line-by-line mode.
   */
  lemma {:induction false} OutfileDefault(outfile: Option<string>, script: string, lineByLine: bool)
    requires outfile.None? || outfile.value == ""
    ensures var r := Outfile(outfile, script, lineByLine);
      && '/' !in r
      && r[..|Basename(script)|] == Basename(script)
      && |r| == |Basename(script)| + (if lineByLine then 6 else 5)
      && (lineByLine ==> |r| >= 6 && r[|r| - 6..] == ".lprof")
      && (!lineByLine ==> !(|r| >= 6 && r[|r| - 6..] == ".lprof") && r[|r| - 5..] == ".prof")
  {
    var b := Basename(script);
    assert Outfile(outfile, script, lineByLine) == DefaultName(b, lineByLine);
    if lineByLine {
      LprofName(b);
    } else {
      ProfName(b);
    }
  }

  lemma LprofName(b: string)
    requires '/' !in b
    ensures var r := DefaultName(b, true);
      '/' !in r && r[..|b|] == b && |r| == |b| + 6 && r[|r| - 6..] == ".lprof"
  {
    var r := DefaultName(b, true);
    assert r[|b|..] == ".lprof";
  }

  lemma ProfName(b: string)
    requires '/' !in b
    ensures var r := DefaultName(b, false);
      '/' !in r && r[..|b|] == b && |r| == |b| + 5 && !(|r| >= 6 && r[|r| - 6..] == ".lprof") && r[|r| - 5..] == ".prof"
  {
    var r := DefaultName(b, false);
    assert r[|b|..] == ".prof";
    if |r| >= 6 {
      assert r[|r| - 5] == '.';
      assert r[|r| - 6..][1] != ".lprof"[1];
    }
  }

  /** An explicit, non-empty output file name is kept as given. */
  lemma {:induction false} OutfileExplicit(name: string, script: string, lineByLine: bool)
    requires name != ""
    ensures Outfile(Some(name), script, lineByLine) == name
  {
  }
}

/** Concrete inputs: the doctests of `pre_parse_single_arg_directive` and the input that shows the defect. */
module KernprofArgsExamples {
  import opened Wrappers
  import opened KernprofArgs

  /** A custom separator `"++"` preceded by a `"--"`, with no flag anywhere. */
  const CustomSepArgs: seq<string> := ["a", "--", "b", "++", "c"]

  lemma {:induction false} CustomSepPrefix()
    ensures IndexOf(CustomSepArgs, "++") == Some(3)
    ensures CustomSepArgs[..3] == ["a", "--", "b"] && CustomSepArgs[4..] == ["c"]
  {
    assert "--" != "++" by { assert "--"[0] != "++"[0]; }
    IndexOfAt(CustomSepArgs, "++", 3);
  }

  lemma {:induction false} InnerSplitAtDefault()
    ensures PreParseAsWritten(["a", "--", "b"], "-m", "--") == Success(Parsed(["a", "--"], None, ["b"]))
  {
    var pre := ["a", "--", "b"];
    IndexOfAt(pre, "--", 1);
    assert pre[..1] == ["a"] && pre[2..] == ["b"];
    assert IndexOf(["a"], "--") == None && IndexOf(["a"], "-m") == None;
    assert PreParseAsWritten(["a"], "-m", "--") == Success(Parsed(["a"], None, []));
    assert PreParseAsWritten(pre, "-m", "--") == Rejoin(PreParseAsWritten(["a"], "-m", "--"), "--", ["b"]);
    assert ["a"] + ["--"] == ["a", "--"];
  }

  lemma {:induction false} InnerSplitAtCustom()
    ensures PreParse(["a", "--", "b"], "-m", "++") == Success(Parsed(["a", "--", "b"], None, []))
  {
    var pre := ["a", "--", "b"];
    assert "--" != "++" by { assert "--"[0] != "++"[0]; }
    assert "--" != "-m" by { assert "--"[1] != "-m"[1]; }
    assert IndexOf(pre, "++") == None && IndexOf(pre, "-m") == None;
  }

  /**
    As written, a custom separator preceded by a `"--"` and no flag makes the inner call return
    a non-empty third part, which fails `assert not pre_post`; the corrected version returns.
   */
  lemma {:induction false} AsWrittenFailsOnCustomSeparator()
    ensures PreParseAsWritten(CustomSepArgs, "-m", "++") == Failure(AssertionFailed)
    ensures PreParse(CustomSepArgs, "-m", "++") == Success(Parsed(["a", "--", "b", "++"], None, ["c"]))
  {
    AsWrittenCustomRejoin();
    CorrectedCustomRejoin();
  }

  /** As written: the inner result keeps `["b"]` as its third part, so `Rejoin` fails. */
  lemma {:induction false} AsWrittenCustomRejoin()
    ensures PreParseAsWritten(CustomSepArgs, "-m", "++") == Failure(AssertionFailed)
  {
    CustomSepPrefix();
    InnerSplitAtDefault();
  }

  /** Corrected: the inner result has no third part, so the separator joins the first part. */
  lemma {:induction false} CorrectedCustomRejoin()
    ensures PreParse(CustomSepArgs, "-m", "++") == Success(Parsed(["a", "--", "b", "++"], None, ["c"]))
  {
    CustomSepPrefix();
    InnerSplitAtCustom();
    assert ["a", "--", "b"] + ["++"] == ["a", "--", "b", "++"];
  }

  /** The doctests of `pre_parse_single_arg_directive` with `flag='-m'`: normal parsing. */
  lemma {:induction false} PreParseDoctestsNormal()
    ensures PreParse(["foo", "bar", "baz"], "-m", "--") == Success(Parsed(["foo", "bar", "baz"], None, []))
    ensures PreParse(["foo", "bar", "-m", "baz"], "-m", "--") == Success(Parsed(["foo", "bar"], Some("baz"), []))
    ensures PreParse(["foo", "bar", "-m", "baz", "foobar"], "-m", "--")
            == Success(Parsed(["foo", "bar"], Some("baz"), ["foobar"]))
  {
    var a1 := ["foo", "bar", "baz"];
    assert IndexOf(a1, "--") == None && IndexOf(a1, "-m") == None;
    var a2 := ["foo", "bar", "-m", "baz"];
    assert IndexOf(a2, "--") == None && IndexOf(a2, "-m") == Some(2);
    assert a2[..2] == ["foo", "bar"] && a2[4..] == [];
    var a3 := ["foo", "bar", "-m", "baz", "foobar"];
    assert IndexOf(a3, "--") == None && IndexOf(a3, "-m") == Some(2);
    assert a3[..2] == ["foo", "bar"] && a3[4..] == ["foobar"];
  }

  /** The doctest of the erroneous case: the flag without its argument. */
  lemma {:induction false} PreParseDoctestError()
    ensures PreParse(["foo", "bar", "-m"], "-m", "--") == Failure(MissingArgument("-m"))
  {
    var a := ["foo", "bar", "-m"];
    assert IndexOf(a, "--") == None && IndexOf(a, "-m") == Some(2);
  }

  /** The doctest of the `"--"` barrier with no flag before it. */
  lemma {:induction false} PreParseDoctestBarrier()
    ensures PreParse(["foo", "--", "bar", "-m", "baz"], "-m", "--")
            == Success(Parsed(["foo", "--"], None, ["bar", "-m", "baz"]))
  {
    var a := ["foo", "--", "bar", "-m", "baz"];
    assert IndexOf(a, "--") == Some(1);
    assert a[..1] == ["foo"] && a[2..] == ["bar", "-m", "baz"];
    assert IndexOf(["foo"], "--") == None && IndexOf(["foo"], "-m") == None;
    assert PreParse(["foo"], "-m", "--") == Success(Parsed(["foo"], None, []));
    assert PreParse(a, "-m", "--") == Rejoin(PreParse(["foo"], "-m", "--"), "--", a[2..]);
    assert ["foo"] + ["--"] == ["foo", "--"];
  }

  /** A flag before the barrier, followed by another after it. */
  const FlagBeforeBarrierArgs: seq<string> := ["foo", "-m", "spam", "eggs", "--", "bar", "-m", "baz"]

  lemma {:induction false} FlagBeforeBarrierScan()
    ensures ScanEnd(FlagBeforeBarrierArgs, "--") == 4
    ensures IndexOf(FlagBeforeBarrierArgs[..4], "-m") == Some(1)
  {
    assert "-m" != "--" by { assert "-m"[1] != "--"[1]; }
    IndexOfAt(FlagBeforeBarrierArgs, "--", 4);
    IndexOfAt(FlagBeforeBarrierArgs[..4], "-m", 1);
  }

  lemma {:induction false} FlagBeforeBarrierDirective()
    ensures Directive(FlagBeforeBarrierArgs, "-m", "--")
            == Success(Parsed(["foo"], Some("spam"), ["eggs", "--", "bar", "-m", "baz"]))
  {
    FlagBeforeBarrierScan();
    FlagBeforeBarrierParts();
    DirectiveFlagFirst(FlagBeforeBarrierArgs, "-m", "--", 4, 1);
  }

  lemma FlagBeforeBarrierParts()
    ensures FlagBeforeBarrierArgs[..1] == ["foo"] && FlagBeforeBarrierArgs[2] == "spam"
    ensures FlagBeforeBarrierArgs[3..] == ["eggs", "--", "bar", "-m", "baz"]
  {
  }

  /** The doctest of the `"--"` barrier with a flag before it. */
  lemma {:induction false} PreParseDoctestFlagBeforeBarrier()
    ensures PreParse(FlagBeforeBarrierArgs, "-m", "--")
            == Success(Parsed(["foo"], Some("spam"), ["eggs", "--", "bar", "-m", "baz"]))
  {
    FlagBeforeBarrierDirective();
    PreParseIsDirective(FlagBeforeBarrierArgs, "-m", "--");
  }
}
