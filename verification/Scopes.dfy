/** Aliases: a branch re-joins from the roots under fresh aliases, and so reaches exactly the
    spots that its relations lead to. */
module Scopes {
  import opened Objects
  import opened Paths
  import opened Relations
  import opened Plans
  import opened Generator
  import opened Bags

  function LastAlias(steps: seq<Step>): nat {
    if steps == [] then 0 else steps[|steps| - 1].child
  }

  /** Each step joins to the alias before it, under a larger alias; all are below `n`. */
  ghost predicate Chained(steps: seq<Step>, n: nat) {
    if steps == [] then 0 < n
    else
      var init, last := steps[..|steps| - 1], steps[|steps| - 1];
      last.child < n && last.parent == LastAlias(init) && Chained(init, last.child)
  }

  lemma {:induction false} ChainedWeaken(steps: seq<Step>, m: nat, n: nat)
    requires Chained(steps, m) && m <= n
    ensures Chained(steps, n)
  {
  }

  lemma ChainedExtend(q: Pending, n: nat)
    requires Chained(q.ancestors, n)
    ensures Chained(q.ancestors + [StepFor(q, n)], n + 1)
  {
    var steps := q.ancestors + [StepFor(q, n)];
    assert steps[..|steps| - 1] == q.ancestors;
  }

  lemma {:induction false} AliasesBelow(steps: seq<Step>, n: nat)
    requires Chained(steps, n)
    ensures forall a :: a in PathAliases(steps) ==> a < n
    ensures LastAlias(steps) < n
  {
    if steps != [] {
      var init, last := steps[..|steps| - 1], steps[|steps| - 1];
      AliasesBelow(init, last.child);
    }
  }

  /** The spots reached from the roots along the joins. */
  function SpotsAlong(roots: seq<Obj>, steps: seq<Step>, objects: seq<Obj>): seq<Spot> {
    if steps == [] then RootSpots(roots)
    else Grow(SpotsAlong(roots, steps[..|steps| - 1], objects), steps[|steps| - 1].join, objects)
  }

  ghost predicate AllBind(envs: seq<Env>, a: nat) {
    forall i :: 0 <= i < |envs| ==> a in envs[i]
  }

  lemma {:induction false} FreshKeepsPath(env: Env, child: nat, x: Obj, path: seq<nat>)
    requires child !in path
    ensures PathText(env[child := x], path) == PathText(env, path)
  {
    if path != [] {
      FreshKeepsPath(env, child, x, path[..|path| - 1]);
    }
  }

  lemma ExtendedPath(env: Env, child: nat, x: Obj, path: seq<nat>)
    requires child !in path
    ensures PathText(env[child := x], path + [child]) == PathText(env, path) + Segment(x)
  {
    FreshKeepsPath(env, child, x, path);
    assert (path + [child])[..|path|] == path;
  }

  lemma {:induction false} BindSpots(env: Env, child: nat, xs: seq<Obj>, path: seq<nat>, p: Obj)
    requires child !in path
    ensures SpotsOf(Bind(env, child, xs), child, path + [child]) == Reach(Spot(PathText(env, path), p), xs)
    ensures AllBind(Bind(env, child, xs), child)
  {
    if xs != [] {
      hide PathText, Segment;
      BindSpots(env, child, xs[1..], path, p);
      ExtendedPath(env, child, xs[0], path);
      assert Bind(env, child, xs)[1..] == Bind(env, child, xs[1..]);
    }
  }

  lemma SpotsOfStep(env: Env, envs: seq<Env>, child: nat, path: seq<nat>)
    ensures SpotsOf([env] + envs, child, path) == SpotOf(env, child, path) + SpotsOf(envs, child, path)
  {
    assert ([env] + envs)[1..] == envs;
  }

  lemma {:induction false} SpotsOfConcat(a: seq<Env>, b: seq<Env>, child: nat, path: seq<nat>)
    ensures SpotsOf(a + b, child, path) == SpotsOf(a, child, path) + SpotsOf(b, child, path)
  {
    hide SpotOf;
    if a == [] {
      assert a + b == b;
    } else {
      hide SpotsOf;
      var env, tail := a[0], a[1..];
      calc {
        SpotsOf(a + b, child, path);
        { assert a + b == [env] + (tail + b); SpotsOfStep(env, tail + b, child, path); }
        SpotOf(env, child, path) + SpotsOf(tail + b, child, path);
        { SpotsOfConcat(tail, b, child, path); }
        SpotOf(env, child, path) + (SpotsOf(tail, child, path) + SpotsOf(b, child, path));
        (SpotOf(env, child, path) + SpotsOf(tail, child, path)) + SpotsOf(b, child, path);
        { assert a == [env] + tail; SpotsOfStep(env, tail, child, path); }
        SpotsOf(a, child, path) + SpotsOf(b, child, path);
      }
    }
  }

  lemma {:induction false} JoinSpots(envs: seq<Env>, s: Step, objects: seq<Obj>, path: seq<nat>)
    requires s.child !in path && AllBind(envs, s.parent)
    ensures SpotsOf(JoinAll(envs, s, objects), s.child, path + [s.child])
            == Grow(SpotsOf(envs, s.parent, path), s.join, objects)
    ensures AllBind(JoinAll(envs, s, objects), s.child)
  {
    if envs != [] {
      hide PathText, Matches, Bind, Reach;
      var env := envs[0];
      var xs := Matches(s.join, env[s.parent], objects);
      JoinSpots(envs[1..], s, objects, path);
      BindSpots(env, s.child, xs, path, env[s.parent]);
      SpotsOfConcat(Bind(env, s.child, xs), JoinAll(envs[1..], s, objects), s.child, path + [s.child]);
      var spot := Spot(PathText(env, path), env[s.parent]);
      assert SpotsOf(envs, s.parent, path) == [spot] + SpotsOf(envs[1..], s.parent, path);
      GrowStep(spot, SpotsOf(envs[1..], s.parent, path), s.join, objects);
    }
  }

  lemma {:induction false} RootEnvSpots(roots: seq<Obj>)
    ensures SpotsOf(RootEnvs(roots), 0, [0]) == RootSpots(roots)
    ensures AllBind(RootEnvs(roots), 0)
  {
    if roots != [] {
      hide Segment;
      RootEnvSpots(roots[1..]);
      var env: Env := map[0 := roots[0]];
      assert RootEnvs(roots)[1..] == RootEnvs(roots[1..]);
      assert PathText(env, [0]) == Segment(roots[0]) by {
        assert [0][..0] == [];
        assert PathText(env, []) + Segment(roots[0]) == Segment(roots[0]);
      }
    }
  }

  /** A branch's rows are at exactly the spots its relations lead to. */
  lemma {:induction false} EnvSpots(roots: seq<Obj>, steps: seq<Step>, objects: seq<Obj>, n: nat)
    requires Chained(steps, n)
    ensures SpotsOf(Envs(roots, steps, objects), LastAlias(steps), PathAliases(steps))
            == SpotsAlong(roots, steps, objects)
    ensures AllBind(Envs(roots, steps, objects), LastAlias(steps))
  {
    if steps == [] {
      RootEnvSpots(roots);
    } else {
      hide SpotsOf, JoinAll, Grow, AllBind;
      var init, last := steps[..|steps| - 1], steps[|steps| - 1];
      EnvSpots(roots, init, objects, last.child);
      AliasesBelow(init, last.child);
      JoinSpots(Envs(roots, init, objects), last, objects, PathAliases(init));
    }
  }
}
