/** Many instances that enable and disable their modules along their dependencies: passes in any order converge. */
module Cascade {
  import opened Types
  import opened Lifecycle

  datatype Node = Node(typeId: U16, dependencies: seq<U16>, core: Core)

  type System = seq<Node>

  /** The dependency ranks: a type ranks above the types it depends on. */
  type Ranks = U16 -> nat

  /** Another instance of the type is active. With accurate registries, this is what an instance sees. */
  predicate HasActive(s: System, i: nat, t: U16) {
    exists j :: 0 <= j < |s| && j != i && s[j].typeId == t && s[j].core.moduleActive
  }

  predicate Satisfied(s: System, i: nat)
    requires i < |s|
  {
    forall k :: 0 <= k < |s[i].dependencies| ==> HasActive(s, i, s[i].dependencies[k])
  }

  /** One pass of one instance's loop: its id is unique, and its enable function succeeds. */
  function PassOf(s: System, i: nat): System
    requires i < |s|
  {
    s[i := s[i].(core := Step(s[i].core, Pass(Satisfied(s, i), true, true)))]
  }

  /** The module is on, or is to be: no disabling is requested while active, enabling is while inactive. */
  predicate Wish(c: Core) {
    if c.moduleActive then !c.disableRequested else c.enableRequested
  }

  /** The instance runs and is between steps. */
  ghost predicate Runs(c: Core) {
    Agreed(c) && OneWish(c) && c.isStarted && !c.stopRequested
  }

  ghost predicate Running(s: System) {
    forall i :: 0 <= i < |s| ==> Runs(s[i].core)
  }

  ghost predicate Acyclic(s: System, rank: Ranks) {
    forall i, k :: 0 <= i < |s| && 0 <= k < |s[i].dependencies| ==> rank(s[i].dependencies[k]) < rank(s[i].typeId)
  }

  // ---- One pass ----

  /** A pass keeps the wish, and makes the module active exactly when it wishes to be and finds its dependencies. */
  lemma PassSettles(c: Core, dependencies: bool)
    requires Runs(c)
    ensures var r := Step(c, Pass(dependencies, true, true));
            Runs(r) && Wish(r) == Wish(c) && r.moduleActive == (Wish(c) && dependencies)
  {
  }

  /** A pass changes nothing exactly when the module already is as it should be. */
  lemma PassIdles(c: Core, dependencies: bool)
    requires Runs(c)
    ensures Step(c, Pass(dependencies, true, true)) == c <==> c.moduleActive == (Wish(c) && dependencies)
  {
  }

  /** Same instances, same wishes. */
  ghost predicate SameWishes(s: System, r: System) {
    |r| == |s| && forall i :: 0 <= i < |s| ==>
      r[i].typeId == s[i].typeId && r[i].dependencies == s[i].dependencies && Wish(r[i].core) == Wish(s[i].core)
  }

  lemma PassKeepsWishes(s: System, i: nat)
    requires Running(s) && i < |s|
    ensures Running(PassOf(s, i)) && SameWishes(s, PassOf(s, i))
    ensures PassOf(s, i)[i].core.moduleActive == (Wish(s[i].core) && Satisfied(s, i))
    ensures forall j :: 0 <= j < |s| && j != i ==> PassOf(s, i)[j] == s[j]
  {
    PassSettles(s[i].core, Satisfied(s, i));
    hide Step, Runs, Wish;
  }

  // ---- The goal ----

  /** Whether an instance ends up active: it wishes to, and every type it depends on has an instance that ends up active. */
  ghost predicate Goal(s: System, rank: Ranks, i: nat)
    requires Acyclic(s, rank) && i < |s|
    decreases rank(s[i].typeId), 0
  {
    Wish(s[i].core) && forall k :: 0 <= k < |s[i].dependencies| ==> Provided(s, rank, s[i].dependencies[k])
  }

  ghost predicate Provided(s: System, rank: Ranks, t: U16)
    requires Acyclic(s, rank)
    decreases rank(t), 1
  {
    exists j :: 0 <= j < |s| && s[j].typeId == t && Goal(s, rank, j)
  }

  lemma {:induction false} GoalDependsOnWishes(s: System, r: System, rank: Ranks, i: nat)
    requires SameWishes(s, r) && Acyclic(s, rank) && Acyclic(r, rank) && i < |s|
    ensures Goal(s, rank, i) == Goal(r, rank, i)
    decreases rank(s[i].typeId), 0
  {
    assert r[i].dependencies == s[i].dependencies && Wish(r[i].core) == Wish(s[i].core);
    forall k | 0 <= k < |s[i].dependencies|
      ensures Provided(s, rank, s[i].dependencies[k]) == Provided(r, rank, s[i].dependencies[k])
    {
      ProvidedDependsOnWishes(s, r, rank, s[i].dependencies[k]);
    }
  }

  lemma {:induction false} ProvidedDependsOnWishes(s: System, r: System, rank: Ranks, t: U16)
    requires SameWishes(s, r) && Acyclic(s, rank) && Acyclic(r, rank)
    ensures Provided(s, rank, t) == Provided(r, rank, t)
    decreases rank(t), 1
  {
    forall j | 0 <= j < |s|
      ensures r[j].typeId == s[j].typeId
      ensures s[j].typeId == t ==> Goal(s, rank, j) == Goal(r, rank, j)
    {
      if s[j].typeId == t { GoalDependsOnWishes(s, r, rank, j); }
    }
  }

  /** The instances below this rank are as they should be. */
  ghost predicate SettledBelow(s: System, rank: Ranks, level: nat)
    requires Acyclic(s, rank)
  {
    forall j :: 0 <= j < |s| && rank(s[j].typeId) < level ==> s[j].core.moduleActive == Goal(s, rank, j)
  }

  /** An instance whose lower ranks are settled sees exactly what the goal asks for. */
  lemma SatisfiedIsGoal(s: System, rank: Ranks, i: nat)
    requires Acyclic(s, rank) && i < |s| && SettledBelow(s, rank, rank(s[i].typeId))
    ensures (Wish(s[i].core) && Satisfied(s, i)) == Goal(s, rank, i)
  {
    hide Wish;
    forall k | 0 <= k < |s[i].dependencies|
      ensures HasActive(s, i, s[i].dependencies[k]) == Provided(s, rank, s[i].dependencies[k])
    {
      var t := s[i].dependencies[k];
      assert rank(t) < rank(s[i].typeId);
      assert forall j :: 0 <= j < |s| && s[j].typeId == t ==> j != i && s[j].core.moduleActive == Goal(s, rank, j);
    }
  }

  lemma AcyclicKept(s: System, r: System, rank: Ranks)
    requires Acyclic(s, rank) && SameWishes(s, r)
    ensures Acyclic(r, rank)
  {
    hide Wish;
    forall i, k | 0 <= i < |r| && 0 <= k < |r[i].dependencies|
      ensures rank(r[i].dependencies[k]) < rank(r[i].typeId)
    {
      assert r[i].dependencies == s[i].dependencies && r[i].typeId == s[i].typeId;
    }
  }

  /** A pass keeps what is settled below a level, and settles the instance if everything below it is. */
  lemma PassKeepsSettled(s: System, rank: Ranks, level: nat, i: nat)
    requires Running(s) && Acyclic(s, rank) && i < |s| && SettledBelow(s, rank, level)
    ensures Running(PassOf(s, i)) && SameWishes(s, PassOf(s, i)) && Acyclic(PassOf(s, i), rank)
    ensures SettledBelow(PassOf(s, i), rank, level)
    ensures rank(s[i].typeId) <= level ==> PassOf(s, i)[i].core.moduleActive == Goal(s, rank, i)
  {
    var r := PassOf(s, i);
    PassKeepsWishes(s, i);
    AcyclicKept(s, r, rank);
    if rank(s[i].typeId) <= level {
      SatisfiedIsGoal(s, rank, i);
    }
    hide PassOf, Satisfied, Wish, Running, Acyclic;
    forall j | 0 <= j < |r| && rank(r[j].typeId) < level
      ensures r[j].core.moduleActive == Goal(r, rank, j)
    {
      GoalDependsOnWishes(s, r, rank, j);
    }
  }

  // ---- Rounds ----

  function Passes(s: System, order: seq<nat>): System
    requires forall k :: 0 <= k < |order| ==> order[k] < |s|
    ensures |Passes(s, order)| == |s|
  {
    if order == [] then s else PassOf(Passes(s, order[..|order| - 1]), order[|order| - 1])
  }

  /** Instances of this level that have passed are settled too. */
  ghost predicate Caught(s: System, rank: Ranks, level: nat, done: seq<nat>)
    requires Acyclic(s, rank)
  {
    forall i :: 0 <= i < |s| && rank(s[i].typeId) == level && i in done ==> s[i].core.moduleActive == Goal(s, rank, i)
  }

  lemma {:induction false} PassesKeep(s: System, rank: Ranks, level: nat, order: seq<nat>)
    requires Running(s) && Acyclic(s, rank) && SettledBelow(s, rank, level)
    requires forall k :: 0 <= k < |order| ==> order[k] < |s|
    ensures var r := Passes(s, order);
            && Running(r) && SameWishes(s, r) && Acyclic(r, rank)
            && SettledBelow(r, rank, level) && Caught(r, rank, level, order)
  {
    if order != [] {
      var n := |order| - 1;
      var i, before := order[n], Passes(s, order[..n]);
      PassesKeep(s, rank, level, order[..n]);
      PassKeepsSettled(before, rank, level, i);
      assert order == order[..n] + [i];
      hide Running, SettledBelow, Acyclic;
      var r := PassOf(before, i);
      assert SameWishes(s, r);
      assert Caught(r, rank, level, order) by {
        forall j | 0 <= j < |r| && rank(r[j].typeId) == level && j in order
          ensures r[j].core.moduleActive == Goal(r, rank, j)
        {
          GoalDependsOnWishes(before, r, rank, j);
        }
      }
    }
  }

  function Rounds(s: System, rounds: seq<seq<nat>>): System
    requires Covering(s, rounds)
    ensures |Rounds(s, rounds)| == |s|
  {
    if rounds == [] then s else Passes(Rounds(s, rounds[..|rounds| - 1]), rounds[|rounds| - 1])
  }

  /** In every round, every instance passes at least once, in any order. */
  predicate Covering(s: System, rounds: seq<seq<nat>>) {
    forall k :: 0 <= k < |rounds| ==> Covers(s, rounds[k])
  }

  predicate Covers(s: System, order: seq<nat>) {
    && (forall k :: 0 <= k < |order| ==> order[k] < |s|)
    && forall i :: 0 <= i < |s| ==> i in order
  }

  /** Each round settles one more rank. */
  lemma {:induction false} RoundsSettle(s: System, rank: Ranks, rounds: seq<seq<nat>>)
    requires Running(s) && Acyclic(s, rank) && Covering(s, rounds)
    ensures var r := Rounds(s, rounds);
            Running(r) && SameWishes(s, r) && Acyclic(r, rank) && SettledBelow(r, rank, |rounds|)
  {
    if rounds != [] {
      var n := |rounds| - 1;
      RoundsSettle(s, rank, rounds[..n]);
      var before := Rounds(s, rounds[..n]);
      assert Covers(before, rounds[n]) by { assert Covers(s, rounds[n]); }
      PassesKeep(before, rank, n, rounds[n]);
      var r := Passes(before, rounds[n]);
      hide Passes, Running, Acyclic;
      assert SettledBelow(r, rank, n + 1) by {
        assert Caught(r, rank, n, rounds[n]) && SettledBelow(r, rank, n);
      }
    }
  }

  /** Every instance is active exactly when it wishes to be and another instance of each type it depends on is active. */
  ghost predicate Settled(s: System) {
    forall i :: 0 <= i < |s| ==> s[i].core.moduleActive == (Wish(s[i].core) && Satisfied(s, i))
  }

  /** The cascade converges: after one round more than the deepest rank, whatever the order of the passes, the system is
      settled, the wishes are those of the start, and exactly the instances of the goal are active. */
  lemma CascadeConverges(s: System, rank: Ranks, depth: nat, rounds: seq<seq<nat>>)
    requires Running(s) && Acyclic(s, rank) && Covering(s, rounds) && |rounds| == depth + 1
    requires forall i :: 0 <= i < |s| ==> rank(s[i].typeId) <= depth
    ensures var r := Rounds(s, rounds);
            && Settled(r) && SameWishes(s, r)
            && forall i :: 0 <= i < |s| ==> r[i].core.moduleActive == Goal(s, rank, i)
  {
    RoundsSettle(s, rank, rounds);
    var r := Rounds(s, rounds);
    forall i | 0 <= i < |s|
      ensures r[i].core.moduleActive == Goal(s, rank, i)
      ensures r[i].core.moduleActive == (Wish(r[i].core) && Satisfied(r, i))
    {
      assert r[i].typeId == s[i].typeId;
      GoalDependsOnWishes(s, r, rank, i);
      SatisfiedIsGoal(r, rank, i);
      hide Rounds, Wish, Satisfied, Running;
    }
  }

  /** Settled is the same as being at rest: then, and only then, no pass of any instance changes anything. */
  lemma SettledIsAtRest(s: System)
    requires Running(s)
    ensures Settled(s) <==> forall i :: 0 <= i < |s| ==> PassOf(s, i) == s
  {
    forall i | 0 <= i < |s|
      ensures PassOf(s, i) == s <==> s[i].core.moduleActive == (Wish(s[i].core) && Satisfied(s, i))
    {
      PassIdles(s[i].core, Satisfied(s, i));
      hide Step, Wish, Satisfied;
      assert PassOf(s, i)[i].core == Step(s[i].core, Pass(Satisfied(s, i), true, true));
      assert s[i := s[i]] == s;
    }
  }

  /** There is one state of rest for given wishes: any settled system with them has the same active instances. */
  lemma RestIsUnique(s: System, r: System, rank: Ranks)
    requires Acyclic(s, rank) && SameWishes(s, r) && Settled(s) && Settled(r)
    ensures forall i :: 0 <= i < |s| ==> s[i].core.moduleActive == r[i].core.moduleActive
  {
    AcyclicKept(s, r, rank);
    forall i | 0 <= i < |s|
      ensures s[i].core.moduleActive == r[i].core.moduleActive
    {
      SettledIsGoal(s, rank, i);
      SettledIsGoal(r, rank, i);
      GoalDependsOnWishes(s, r, rank, i);
    }
  }

  lemma {:induction false} SettledIsGoal(s: System, rank: Ranks, i: nat)
    requires Acyclic(s, rank) && Settled(s) && i < |s|
    ensures s[i].core.moduleActive == Goal(s, rank, i)
    decreases rank(s[i].typeId)
  {
    forall j | 0 <= j < |s| && rank(s[j].typeId) < rank(s[i].typeId)
      ensures s[j].core.moduleActive == Goal(s, rank, j)
    {
      SettledIsGoal(s, rank, j);
    }
    SatisfiedIsGoal(s, rank, i);
  }
}
