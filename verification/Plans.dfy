/** Plans of commands, run one after another from a state, and an invariant that holds wherever a run stops. */
module Plans {

  function Run<S, C>(exec: (S, C) -> S, s: S, plan: seq<C>): S
    decreases |plan|
  {
    if plan == [] then s else Run(exec, exec(s, plan[0]), plan[1..])
  }

  /** The invariant holds before the plan and after each of its commands. */
  predicate Steady<S, C>(inv: S -> bool, exec: (S, C) -> S, s: S, plan: seq<C>)
    decreases |plan|
  {
    inv(s) && (plan == [] || Steady(inv, exec, exec(s, plan[0]), plan[1..]))
  }

  /** Wherever a steady plan stops, the invariant holds. */
  lemma {:induction false} SteadyMeans<S, C>(inv: S -> bool, exec: (S, C) -> S, s: S, plan: seq<C>, n: nat)
    requires Steady(inv, exec, s, plan) && n <= |plan|
    ensures inv(Run(exec, s, plan[..n]))
    decreases n
  {
    if n > 0 {
      SteadyMeans(inv, exec, exec(s, plan[0]), plan[1..], n - 1);
      assert plan[..n][0] == plan[0] && plan[..n][1..] == plan[1..][..n - 1];
    }
  }

  /** Steady plans, one after the other, are steady. */
  lemma {:induction false} Together<S, C>(inv: S -> bool, exec: (S, C) -> S, s: S, a: seq<C>, b: seq<C>)
    requires Steady(inv, exec, s, a) && Steady(inv, exec, Run(exec, s, a), b)
    ensures Steady(inv, exec, s, a + b) && Run(exec, s, a + b) == Run(exec, Run(exec, s, a), b)
    decreases |a|
  {
    if a == [] {
      assert a + b == b;
    } else {
      assert (a + b)[0] == a[0] && (a + b)[1..] == a[1..] + b;
      Together(inv, exec, exec(s, a[0]), a[1..], b);
    }
  }

  lemma ThreeTogether<S, C>(inv: S -> bool, exec: (S, C) -> S, s: S, a: seq<C>, b: seq<C>, c: seq<C>)
    requires Steady(inv, exec, s, a) && Steady(inv, exec, Run(exec, s, a), b)
    requires Steady(inv, exec, Run(exec, Run(exec, s, a), b), c)
    ensures Steady(inv, exec, s, a + b + c)
    ensures Run(exec, s, a + b + c) == Run(exec, Run(exec, Run(exec, s, a), b), c)
  {
    Together(inv, exec, s, a, b);
    Together(inv, exec, s, a + b, c);
  }

  lemma One<S, C>(inv: S -> bool, exec: (S, C) -> S, s: S, c: C)
    requires inv(s) && inv(exec(s, c))
    ensures Steady(inv, exec, s, [c]) && Run(exec, s, [c]) == exec(s, c)
  {
    assert [c][1..] == [];
    assert Steady(inv, exec, exec(s, c), []);
  }

  /** One more command of a plan. */
  lemma {:induction false} RunMore<S, C>(exec: (S, C) -> S, s: S, plan: seq<C>, n: nat)
    requires n < |plan|
    ensures Run(exec, s, plan[..n + 1]) == exec(Run(exec, s, plan[..n]), plan[n])
    decreases n
  {
    var rest := plan[1..];
    assert plan[..n + 1][0] == plan[0] && plan[..n + 1][1..] == rest[..n];
    if n > 0 {
      RunMore(exec, exec(s, plan[0]), rest, n - 1);
      assert plan[..n][0] == plan[0] && plan[..n][1..] == rest[..n - 1];
    }
  }

  lemma {:induction false} RunTogether<S, C>(exec: (S, C) -> S, s: S, a: seq<C>, b: seq<C>)
    ensures Run(exec, s, a + b) == Run(exec, Run(exec, s, a), b)
    decreases |a|
  {
    if a == [] {
      assert a + b == b;
    } else {
      assert (a + b)[0] == a[0] && (a + b)[1..] == a[1..] + b;
      RunTogether(exec, exec(s, a[0]), a[1..], b);
    }
  }

  /** A plan that stopped within its second part. */
  lemma {:induction false} RunInto<S, C>(exec: (S, C) -> S, s: S, a: seq<C>, b: seq<C>, n: nat)
    requires n <= |b|
    ensures Run(exec, s, (a + b)[..|a| + n]) == Run(exec, Run(exec, s, a), b[..n])
  {
    RunAfter(exec, s, a, b, |a| + n);
  }

  lemma {:induction false} RunAfter<S, C>(exec: (S, C) -> S, s: S, a: seq<C>, b: seq<C>, n: nat)
    requires |a| <= n <= |a| + |b|
    ensures Run(exec, s, (a + b)[..n]) == Run(exec, Run(exec, s, a), b[..n - |a|])
  {
    RunTogether(exec, s, a, b[..n - |a|]);
    PrefixOfBoth(a, b, n);
  }

  lemma PrefixOfBoth<C>(a: seq<C>, b: seq<C>, n: nat)
    requires |a| <= n <= |a| + |b|
    ensures (a + b)[..n] == a + b[..n - |a|]
  {
  }
}
