/** Running a sequence of calls on a collaborator that may throw. Calls are
    numbered from 0 in the order the collaborator receives them; call number k
    throws `failures[k]` when `k in failures`. A step either lets a failure
    propagate or, on failure, makes one fallback call whose own failure
    propagates. The calls themselves are left abstract. */
module CallPlans {
  import opened QuranTypes

  /** What a failed call throws: an `Error` object with its message, or some
      other value. */
  datatype Thrown = ErrorObject(message: string) | NonErrorValue

  /** One step of a call sequence: a call whose failure propagates, or a call
      that is retried once with a fallback call when it fails. */
  datatype Step<C> = Plain(call: C) | WithFallback(main: C, fallback: C) {
    function Main(): C {
      match this
      case Plain(c) => c
      case WithFallback(m, _) => m
    }
  }

  /** Every call received so far, and what the last step threw, if anything. */
  datatype Run<C> = Run(calls: seq<C>, thrown: Option<Thrown>)

  function ThrownAt(failures: map<nat, Thrown>, k: nat): (r: Option<Thrown>)
    ensures r.Some? <==> k in failures
    ensures r.Some? ==> r.value == failures[k]
  {
    if k in failures then Some(failures[k]) else None
  }

  /** Performing one step after the calls of `acc`. */
  function Apply<C>(acc: Run<C>, step: Step<C>, failures: map<nat, Thrown>): Run<C> {
    var k := |acc.calls|;
    match step
    case Plain(c) => Run(acc.calls + [c], ThrownAt(failures, k))
    case WithFallback(m, f) =>
      if k !in failures then Run(acc.calls + [m], None)
      else Run(acc.calls + [m, f], ThrownAt(failures, k + 1))
  }

  /** Performing a plan's steps in order after `acc`; once a step throws,
      nothing further is called. */
  function Exec<C>(plan: seq<Step<C>>, acc: Run<C>, failures: map<nat, Thrown>): Run<C>
    decreases |plan|
  {
    if plan == [] || acc.thrown.Some? then acc
    else Exec(plan[1..], Apply(acc, plan[0], failures), failures)
  }

  /** The calls a plan makes when nothing throws. */
  function Mains<C>(plan: seq<Step<C>>): (r: seq<C>)
    ensures |r| == |plan|
    ensures forall i :: 0 <= i < |plan| ==> r[i] == plan[i].Main()
  {
    if plan == [] then [] else [plan[0].Main()] + Mains(plan[1..])
  }

  lemma {:induction false} MainsAppend<C>(p: seq<Step<C>>, q: seq<Step<C>>)
    ensures Mains(p + q) == Mains(p) + Mains(q)
  {
    if p != [] {
      assert (p + q)[1..] == p[1..] + q;
      MainsAppend(p[1..], q);
      ConcatAssoc([p[0].Main()], Mains(p[1..]), Mains(q));
    } else {
      assert p + q == q;
    }
  }

  lemma ConcatAssoc<T>(a: seq<T>, b: seq<T>, c: seq<T>)
    ensures a + (b + c) == (a + b) + c
  {
  }

  /** Running two plans one after the other is running their concatenation. */
  lemma {:induction false} ExecAppend<C>(p: seq<Step<C>>, q: seq<Step<C>>, acc: Run<C>, failures: map<nat, Thrown>)
    ensures Exec(p + q, acc, failures) == Exec(q, Exec(p, acc, failures), failures)
  {
    if p == [] {
      assert p + q == q;
    } else if acc.thrown.Some? {
      assert p + q != [];
    } else {
      assert (p + q)[0] == p[0];
      assert (p + q)[1..] == p[1..] + q;
      ExecAppend(p[1..], q, Apply(acc, p[0], failures), failures);
    }
  }

  /** A one-step plan performs that step unless something already threw. */
  lemma ExecSingle<C>(step: Step<C>, acc: Run<C>, failures: map<nat, Thrown>)
    ensures Exec([step], acc, failures) == if acc.thrown.Some? then acc else Apply(acc, step, failures)
  {
    assert [step][1..] == [];
  }

  /** The plans of several parts, one after the other. */
  function Flatten<C>(parts: seq<seq<Step<C>>>): seq<Step<C>> {
    if parts == [] then [] else Flatten(parts[..|parts| - 1]) + parts[|parts| - 1]
  }

  lemma FlattenSnoc<C>(parts: seq<seq<Step<C>>>, i: nat)
    requires i < |parts|
    ensures Flatten(parts[..i + 1]) == Flatten(parts[..i]) + parts[i]
  {
    assert parts[..i + 1][..i] == parts[..i];
  }

  /** The plan of the first parts is a prefix of the plan of all parts. */
  lemma {:induction false} FlattenPrefix<C>(parts: seq<seq<Step<C>>>, n: nat)
    requires n <= |parts|
    ensures exists rest :: Flatten(parts) == Flatten(parts[..n]) + rest
  {
    if n < |parts| {
      var init := parts[..|parts| - 1];
      FlattenPrefix(init, n);
      assert init[..n] == parts[..n];
      var rest :| Flatten(init) == Flatten(init[..n]) + rest;
      ConcatAssoc(Flatten(parts[..n]), rest, parts[|parts| - 1]);
    } else {
      assert parts[..n] == parts;
      assert Flatten(parts) == Flatten(parts[..n]) + [];
    }
  }

  /** Once something has thrown, a plan calls nothing more. */
  lemma ExecAfterThrow<C>(plan: seq<Step<C>>, acc: Run<C>, failures: map<nat, Thrown>)
    requires acc.thrown.Some?
    ensures Exec(plan, acc, failures) == acc
  {
  }

  /** A run only ever adds calls after the ones already made. */
  lemma {:induction false} ExecExtends<C>(plan: seq<Step<C>>, acc: Run<C>, failures: map<nat, Thrown>)
    ensures |acc.calls| <= |Exec(plan, acc, failures).calls|
    ensures Exec(plan, acc, failures).calls[..|acc.calls|] == acc.calls
  {
    if plan != [] && acc.thrown.None? {
      var next := Apply(acc, plan[0], failures);
      ExecExtends(plan[1..], next, failures);
      var r := Exec(plan, acc, failures);
      assert next.calls[..|acc.calls|] == acc.calls;
      assert r.calls[..|acc.calls|] == r.calls[..|next.calls|][..|acc.calls|];
    }
  }

  /** When no call from the current position on throws, a run makes exactly
      the plan's main calls and throws nothing. */
  lemma {:induction false} ExecWithoutFailures<C>(plan: seq<Step<C>>, acc: Run<C>, failures: map<nat, Thrown>)
    requires acc.thrown.None?
    requires forall k :: k in failures ==> k < |acc.calls|
    ensures Exec(plan, acc, failures) == Run(acc.calls + Mains(plan), None)
  {
    if plan != [] {
      var next := Apply(acc, plan[0], failures);
      assert next == Run(acc.calls + [plan[0].Main()], None);
      ExecWithoutFailures(plan[1..], next, failures);
      assert Mains(plan) == [plan[0].Main()] + Mains(plan[1..]);
      ConcatAssoc(acc.calls, [plan[0].Main()], Mains(plan[1..]));
    }
  }

  /** A run that throws ends with the call that threw, and what it throws is
      exactly what that call threw. */
  lemma {:induction false} ExecThrowsLastCall<C>(plan: seq<Step<C>>, acc: Run<C>, failures: map<nat, Thrown>)
    requires acc.thrown.None?
    ensures var r := Exec(plan, acc, failures);
      r.thrown.Some? ==>
        |acc.calls| < |r.calls| && |r.calls| - 1 in failures && r.thrown.value == failures[|r.calls| - 1]
  {
    if plan != [] {
      var next := Apply(acc, plan[0], failures);
      if next.thrown.None? {
        ExecThrowsLastCall(plan[1..], next, failures);
      }
    }
  }

  /** Every call a run adds is the main call or the fallback call of one of
      the plan's steps. */
  lemma {:induction false} ExecCallsFromPlan<C>(plan: seq<Step<C>>, acc: Run<C>, failures: map<nat, Thrown>)
    ensures var r := Exec(plan, acc, failures);
      forall j :: |acc.calls| <= j < |r.calls| ==>
        exists i :: 0 <= i < |plan| && (r.calls[j] == plan[i].Main() || (plan[i].WithFallback? && r.calls[j] == plan[i].fallback))
  {
    var r := Exec(plan, acc, failures);
    if plan != [] && acc.thrown.None? {
      var next := Apply(acc, plan[0], failures);
      ExecCallsFromPlan(plan[1..], next, failures);
      ExecExtends(plan[1..], next, failures);
      forall j | |acc.calls| <= j < |r.calls|
        ensures exists i :: 0 <= i < |plan| && (r.calls[j] == plan[i].Main() || (plan[i].WithFallback? && r.calls[j] == plan[i].fallback))
      {
        if j < |next.calls| {
          assert r.calls[j] == next.calls[j];
          assert r.calls[j] == plan[0].Main() || (plan[0].WithFallback? && r.calls[j] == plan[0].fallback);
        } else {
          var i :| 0 <= i < |plan[1..]| && (r.calls[j] == plan[1..][i].Main() || (plan[1..][i].WithFallback? && r.calls[j] == plan[1..][i].fallback));
          assert plan[i + 1] == plan[1..][i];
        }
      }
    }
  }

  /** A step with a fallback: when its main call succeeds nothing more is
      called; when it fails exactly one fallback call follows, and only the
      fallback's failure propagates. */
  lemma FallbackOnce<C>(main: C, fallback: C, acc: Run<C>, failures: map<nat, Thrown>)
    requires acc.thrown.None?
    ensures var r := Exec([WithFallback(main, fallback)], acc, failures);
      && (|acc.calls| !in failures ==> r == Run(acc.calls + [main], None))
      && (|acc.calls| in failures ==>
            r.calls == acc.calls + [main, fallback] && r.thrown == ThrownAt(failures, |acc.calls| + 1))
  {
    assert [WithFallback(main, fallback)][1..] == [];
  }
}
