/**
  The nesting-safe enable/disable counter of kernprof's `ContextualProfile`
  (`enable_by_count` / `disable_by_count`): the wrapped profiler is switched on only when the
  count goes from 0 to 1 and switched off only when it goes from 1 to 0.
 */
module KernprofEnable {

  /** A call the counter makes into the wrapped profiler. */
  datatype Call = Enable | Disable

  /** A request made to the counter: `enable_by_count` (Acquire) or `disable_by_count` (Release). */
  datatype Request = Acquire | Release

  /** The counter after a request, and the calls into the wrapped profiler it made. */
  datatype Outcome = Outcome(count: nat, calls: seq<Call>)

  /**
    One request: at most one call into the wrapped profiler, `enable` exactly when a 0 count is
    acquired and `disable` exactly when a count of 1 is released; the calls alternate with the
    profiler's state, which afterwards is on exactly when the count is positive.
   */
  function Step(count: nat, req: Request): (r: Outcome)
    ensures |r.calls| <= 1
    ensures r.calls == [Enable] <==> req.Acquire? && count == 0
    ensures r.calls == [Disable] <==> req.Release? && count == 1
    ensures Alternating(count > 0, r.calls)
    ensures ActiveAfter(count > 0, r.calls) == (r.count > 0)
  {
    match req
    case Acquire => Outcome(count + 1, if count == 0 then [Enable] else [])
    case Release =>
      if count > 0 then Outcome(count - 1, if count == 1 then [Disable] else [])
      else Outcome(count, [])
  }

  /**
    A sequence of requests, starting from `count`: each request moves the count by at most one
    and makes at most one call into the wrapped profiler.
   */
  function Run(count: nat, reqs: seq<Request>): (r: Outcome)
    ensures |r.calls| <= |reqs|
    ensures count - |reqs| <= r.count <= count + |reqs|
    decreases |reqs|
  {
    if reqs == [] then Outcome(count, [])
    else
      var first := Step(count, reqs[0]);
      var rest := Run(first.count, reqs[1..]);
      Outcome(rest.count, first.calls + rest.calls)
  }

  function Repeat(req: Request, n: nat): (r: seq<Request>)
    ensures |r| == n && forall k :: 0 <= k < n ==> r[k] == req
  {
    if n == 0 then [] else [req] + Repeat(req, n - 1)
  }

  /**
    Whether the wrapped profiler is on after `calls`, when it was on (`on`) before them: the
    last call decides.
   */
  function ActiveAfter(on: bool, calls: seq<Call>): bool
  {
    if calls == [] then on else calls[|calls| - 1] == Enable
  }

  /**
    The calls alternate, starting from a profiler that is on (`on`) or off: `enable` is never
    made on a profiler that is already on, nor `disable` on one that is off.
   */
  predicate Alternating(on: bool, calls: seq<Call>)
  {
    (|calls| >= 1 ==> calls[0] == (if on then Disable else Enable))
    && forall k :: 0 <= k < |calls| - 1 ==> calls[k] != calls[k + 1]
  }

  /** Running two request sequences one after the other. */
  lemma {:induction false} RunAppend(count: nat, a: seq<Request>, b: seq<Request>)
    ensures Run(count, a + b).count == Run(Run(count, a).count, b).count
    ensures Run(count, a + b).calls == Run(count, a).calls + Run(Run(count, a).count, b).calls
    decreases |a|
  {
    if a == [] {
      assert a + b == b;
    } else {
      assert (a + b)[0] == a[0];
      assert (a + b)[1..] == a[1..] + b;
      RunAppend(Step(count, a[0]).count, a[1..], b);
    }
  }

  /** `n` nested enables from `count` raise it by `n`, calling `enable` only on a 0 start. */
  lemma {:induction false} RunEnables(count: nat, n: nat)
    ensures Run(count, Repeat(Acquire, n)).count == count + n
    ensures Run(count, Repeat(Acquire, n)).calls == if count == 0 && n > 0 then [Enable] else []
    decreases n
  {
    if n > 0 {
      RunEnables(count + 1, n - 1);
      assert Repeat(Acquire, n)[1..] == Repeat(Acquire, n - 1);
    }
  }

  /** `n <= count` disables lower the count by `n`, calling `disable` only on reaching 0. */
  lemma {:induction false} RunDisables(count: nat, n: nat)
    requires n <= count
    ensures Run(count, Repeat(Release, n)).count == count - n
    ensures Run(count, Repeat(Release, n)).calls == if n == count && n > 0 then [Disable] else []
  {
    if n > 0 {
      RunDisables(count - 1, n - 1);
      assert Repeat(Release, n)[1..] == Repeat(Release, n - 1);
    }
  }

  /**
    `n` nested enables followed by `n` disables return the count to 0 and switch the wrapped
    profiler on once and off once (nothing at all when `n == 0`).
   */
  lemma {:induction false} NestedEnableDisable(n: nat)
    ensures Run(0, Repeat(Acquire, n) + Repeat(Release, n)).count == 0
    ensures Run(0, Repeat(Acquire, n) + Repeat(Release, n)).calls
            == if n == 0 then [] else [Enable, Disable]
  {
    RunAppend(0, Repeat(Acquire, n), Repeat(Release, n));
    RunEnables(0, n);
    RunDisables(n, n);
  }

  /** Disabling at 0, any number of times, changes nothing and calls nothing. */
  lemma {:induction false} DisableAtZero(n: nat)
    ensures Run(0, Repeat(Release, n)) == Outcome(0, [])
  {
    if n > 0 {
      DisableAtZero(n - 1);
      assert Repeat(Release, n)[1..] == Repeat(Release, n - 1);
    }
  }

  /**
    For every request sequence: the calls alternate, and afterwards the wrapped profiler is on
    exactly when the count is positive (given that it was on exactly when the count started
    positive).
   */
  lemma {:induction false} OnIffPositive(count: nat, reqs: seq<Request>)
    ensures Alternating(count > 0, Run(count, reqs).calls)
    ensures ActiveAfter(count > 0, Run(count, reqs).calls) == (Run(count, reqs).count > 0)
    decreases |reqs|
  {
    if reqs != [] {
      var first := Step(count, reqs[0]);
      OnIffPositive(first.count, reqs[1..]);
      var rest := Run(first.count, reqs[1..]);
      var all := first.calls + rest.calls;
      assert Run(count, reqs).calls == all;
      if first.calls != [] {
        assert first.count > 0 <==> first.calls[0] == Enable;
        assert ActiveAfter(count > 0, all) == ActiveAfter(first.count > 0, rest.calls) by {
          if rest.calls != [] {
            assert all[|all| - 1] == rest.calls[|rest.calls| - 1];
          }
        }
        forall k | 0 <= k < |all| - 1
          ensures all[k] != all[k + 1]
        {
          if k >= 1 {
            assert all[k] == rest.calls[k - 1] && all[k + 1] == rest.calls[k];
          }
        }
      } else {
        assert all == rest.calls;
        assert (first.count > 0) == (count > 0);
      }
    }
  }

  /** kernprof's profiler with its by-count switch. */
  class ContextualProfile {
    /** `enable_count`. */
    var enableCount: nat
    /** Whether the wrapped profiler is currently on. */
    var enabled: bool
    /** Every `enable`/`disable` call made into the wrapped profiler, in order. */
    ghost var calls: seq<Call>

    ghost predicate Valid()
      reads this
    {
      enabled == (enableCount > 0) && Alternating(false, calls) && ActiveAfter(false, calls) == enabled
    }

    constructor ()
      ensures Valid() && enableCount == 0 && !enabled && calls == []
    {
      enableCount := 0;
      enabled := false;
      calls := [];
    }

    /** `enable_by_count`. */
    method EnableByCount()
      requires Valid()
      modifies this
      ensures Valid()
      ensures enableCount == Step(old(enableCount), Acquire).count == old(enableCount) + 1
      ensures calls == old(calls) + Step(old(enableCount), Acquire).calls
      ensures old(enableCount) == 0 <==> calls == old(calls) + [Enable]
    {
      ghost var before := calls;
      if enableCount == 0 {
        enabled := true;
        calls := calls + [Enable];
      }
      enableCount := enableCount + 1;
      CallsStayAlternating(before, Step(old(enableCount), Acquire).calls);
    }

    /** `disable_by_count`. */
    method DisableByCount()
      requires Valid()
      modifies this
      ensures Valid()
      ensures enableCount == Step(old(enableCount), Release).count
      ensures calls == old(calls) + Step(old(enableCount), Release).calls
      ensures old(enableCount) == 0 ==> enableCount == 0 && calls == old(calls)
      ensures old(enableCount) == 1 <==> calls == old(calls) + [Disable]
    {
      ghost var before := calls;
      if enableCount > 0 {
        enableCount := enableCount - 1;
        if enableCount == 0 {
          enabled := false;
          calls := calls + [Disable];
        }
      }
      CallsStayAlternating(before, Step(old(enableCount), Release).calls);
    }
  }

  /** Appending a call that differs from the last one (or is the right first one) keeps alternation. */
  lemma CallsStayAlternating(before: seq<Call>, added: seq<Call>)
    requires Alternating(false, before)
    requires |added| <= 1
    requires |added| == 1 ==> added[0] == (if ActiveAfter(false, before) then Disable else Enable)
    ensures Alternating(false, before + added)
    ensures ActiveAfter(false, before + added) == (if added == [] then ActiveAfter(false, before) else added[0] == Enable)
  {
  }

  /** The counter's behaviour exercised by kernprof's test of nested enables and disables. */
  method EnableDisableScenario()
  {
    var p := new ContextualProfile();
    p.EnableByCount();
    assert p.enableCount == 1 && p.calls == [Enable];
    p.EnableByCount();
    assert p.enableCount == 2 && p.calls == [Enable];
    p.DisableByCount();
    assert p.enableCount == 1 && p.calls == [Enable];
    p.DisableByCount();
    assert p.enableCount == 0 && p.calls == [Enable, Disable] && !p.enabled;
    p.DisableByCount();
    assert p.enableCount == 0 && p.calls == [Enable, Disable];
  }
}
