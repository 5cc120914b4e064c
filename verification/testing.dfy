/**
 * The testing overlay (source/libenvpp_testing.cpp): a global map of variables
 * that takes precedence over the real environment, filled and emptied scope by
 * scope by scoped_test_environment.
 */
module Testing {
  import opened Optional
  import opened Text
  import opened Environment
  import opened Errors

  // ---------------------------------------------------------------------------
  // merge_environments

  /** The merged snapshot: every low-precedence entry, overwritten by the high-precedence ones. */
  function Merged(high: Env, low: Env): Env
  {
    low + high
  }

  /** Precedence: the keys are the union, a high-precedence value wins, a low-only value is kept. */
  lemma MergedPrecedence(high: Env, low: Env)
    ensures Merged(high, low).Keys == high.Keys + low.Keys
    ensures forall k :: k in high ==> Merged(high, low)[k] == high[k]
    ensures forall k :: k in low && k !in high ==> Merged(high, low)[k] == low[k]
  {
  }

  /** Merging with an empty overlay gives the other snapshot back, and an empty base gives the overlay. */
  lemma MergedIdentity(env: Env)
    ensures Merged(map[], env) == env && Merged(env, map[]) == env
  {
  }

  /** merge_environments: copy the low-precedence map, then write every high-precedence entry over it. */
  method MergeEnvironments(high: Env, low: Env) returns (merged: Env)
    ensures merged == Merged(high, low)
  {
    merged := low;
    var pending := high.Keys;
    while pending != {}
      invariant pending <= high.Keys
      invariant merged == Merged(Restrict(high, high.Keys - pending), low)
      decreases |pending|
    {
      var name :| name in pending;
      assert Restrict(high, high.Keys - (pending - {name})) == Restrict(high, high.Keys - pending)[name := high[name]];
      merged := merged[name := high[name]];
      pending := pending - {name};
    }
    assert Restrict(high, high.Keys - pending) == high;
  }

  /** The entries of `m` whose names are in `names`. */
  function Restrict(m: Env, names: set<string>): Env
  {
    map name | name in m.Keys && name in names :: m[name]
  }

  // ---------------------------------------------------------------------------
  // g_testing_environment and scoped_test_environment

  function CollisionMessage(existing: string, name: string, value: string): string
  {
    "The global test environment already contains the value '" + existing + "' for variable '" + name
      + "', while trying to set it to '" + value + "'"
  }

  /** Some name of `scope` is already set in `entries`. */
  predicate Collides(entries: Env, scope: Env)
  {
    exists name :: name in scope && name in entries
  }

  /**
   * g_testing_environment, with the constructor and the destructor of
   * scoped_test_environment as `Push` and `Pop` of a scope's entries.
   */
  class TestingEnvironment {
    var entries: Env

    constructor()
      ensures entries == map[]
    {
      entries := map[];
    }

    /**
     * The constructor of scoped_test_environment: every entry of the scope is
     * checked against the global map and inserted, failing with
     * test_environment_error on a name that is already set. On failure the
     * global map is left as it was (see `PushInOrder` for the source's
     * behaviour).
     */
    method Push(scope: Env) returns (failure: Option<Exception>)
      modifies this
      ensures failure.Some? <==> Collides(old(entries), scope)
      ensures failure.Some? ==> failure.value.TestEnvironmentError? && entries == old(entries)
      ensures failure.None? ==> entries == old(entries) + scope
    {
      var staged := entries;
      var pending := scope.Keys;
      while pending != {}
        invariant pending <= scope.Keys && entries == old(entries)
        invariant forall name :: name in scope && name !in pending ==> name !in entries
        invariant staged == entries + Restrict(scope, scope.Keys - pending)
        decreases |pending|
      {
        var name :| name in pending;
        if name in entries {
          return Some(TestEnvironmentError(CollisionMessage(entries[name], name, scope[name])));
        }
        assert Restrict(scope, scope.Keys - (pending - {name})) == Restrict(scope, scope.Keys - pending)[name := scope[name]];
        staged := staged[name := scope[name]];
        pending := pending - {name};
      }
      assert Restrict(scope, scope.Keys - pending) == scope;
      entries := staged;
      failure := None;
    }

    /** The destructor of scoped_test_environment: every name of the scope is erased. */
    method Pop(scope: Env)
      modifies this
      ensures entries.Keys == old(entries).Keys - scope.Keys
      ensures forall name :: name in entries ==> entries[name] == old(entries)[name]
    {
      var pending := scope.Keys;
      while pending != {}
        invariant pending <= scope.Keys
        invariant entries.Keys == old(entries).Keys - (scope.Keys - pending)
        invariant forall name :: name in entries ==> entries[name] == old(entries)[name]
        decreases |pending|
      {
        var name :| name in pending;
        entries := entries - {name};
        pending := pending - {name};
      }
    }
  }

  /**
   * A scoped_test_environment's lifetime with the corrected push (see
   * `PushInOrder` for the source's, which can leave part of the scope set):
   * the constructor pushes the scope and, when it did not throw, the
   * destructor pops it again. Either way the global map ends as it began,
   * and the push fails exactly on a collision.
   */
  method ScopedLifetime(t: TestingEnvironment, scope: Env) returns (failure: Option<Exception>)
    modifies t
    ensures failure.Some? <==> Collides(old(t.entries), scope)
    ensures t.entries == old(t.entries)
  {
    ghost var before := t.entries;
    failure := t.Push(scope);
    if failure.None? {
      t.Pop(scope);
      forall name | name in t.entries
        ensures name in before && t.entries[name] == before[name]
      {
      }
    }
  }

  /** The message of a collision names the variable and both values. */
  lemma CollisionMessageNamesVariable(existing: string, name: string, value: string)
    ensures Contains(CollisionMessage(existing, name, value), name)
  {
    var head := "The global test environment already contains the value '" + existing + "' for variable '";
    var tail := "', while trying to set it to '" + value + "'";
    assert CollisionMessage(existing, name, value) == head + name + tail;
    ContainsMiddle(head, name, tail);
  }

  // ---------------------------------------------------------------------------
  // The constructor as written

  /** The global map after a push, and whether the push threw. */
  datatype PushResult = PushResult(entries: Env, threw: bool)

  /** The names `order` visits from index `k` up to, not including, index `i`. */
  function Visited(order: seq<string>, k: nat, i: nat): set<string>
    requires k <= i <= |order|
  {
    set j | k <= j < i :: order[j]
  }

  /** The index of the first name of `order` from `k` on that `entries` already holds, or |order| when none does. */
  function FirstCollision(entries: Env, order: seq<string>, k: nat): (i: nat)
    requires k <= |order|
    ensures k <= i <= |order|
    ensures forall j :: k <= j < i ==> order[j] !in entries
    ensures i < |order| ==> order[i] in entries
    decreases |order| - k
  {
    if k == |order| then k
    else if order[k] in entries then k
    else FirstCollision(entries, order, k + 1)
  }

  /** Setting a name that `order` does not visit from `k` on does not move the first collision. */
  lemma {:induction false} FirstCollisionIgnores(entries: Env, order: seq<string>, k: nat, name: string, v: string)
    requires k <= |order|
    requires forall j :: k <= j < |order| ==> order[j] != name
    ensures FirstCollision(entries[name := v], order, k) == FirstCollision(entries, order, k)
    decreases |order| - k
  {
    if k < |order| && order[k] !in entries {
      FirstCollisionIgnores(entries, order, k + 1, name, v);
    }
  }

  /**
   * The loop of the constructor of scoped_test_environment exactly as written,
   * from position `k` of the visiting order `order`: each name is checked and
   * inserted in turn, so a collision throws after the earlier names are
   * already in the global map.
   */
  function PushFrom(entries: Env, scope: Env, order: seq<string>, k: nat): (r: PushResult)
    requires k <= |order|
    requires forall i :: 0 <= i < |order| ==> order[i] in scope
    requires forall i, j :: 0 <= i < j < |order| ==> order[i] != order[j]
    ensures r.threw <==> FirstCollision(entries, order, k) < |order|
    ensures r.entries == entries + Restrict(scope, Visited(order, k, FirstCollision(entries, order, k)))
    decreases |order| - k
  {
    if k == |order| then
      assert Restrict(scope, Visited(order, k, k)) == map[];
      PushResult(entries, false)
    else if order[k] in entries then
      assert Restrict(scope, Visited(order, k, k)) == map[];
      PushResult(entries, true)
    else
      var r := PushFrom(entries[order[k] := scope[order[k]]], scope, order, k + 1);
      PushFromStep(entries, scope, order, k, r);
      r
  }

  /** What the rest of the loop does after inserting the name at `k` is what the loop does from `k`. */
  lemma PushFromStep(entries: Env, scope: Env, order: seq<string>, k: nat, r: PushResult)
    requires k < |order| && order[k] in scope && order[k] !in entries
    requires forall j :: k < j < |order| ==> order[j] != order[k]
    requires var entries' := entries[order[k] := scope[order[k]]];
      && (r.threw <==> FirstCollision(entries', order, k + 1) < |order|)
      && r.entries == entries' + Restrict(scope, Visited(order, k + 1, FirstCollision(entries', order, k + 1)))
    ensures r.threw <==> FirstCollision(entries, order, k) < |order|
    ensures r.entries == entries + Restrict(scope, Visited(order, k, FirstCollision(entries, order, k)))
  {
    FirstCollisionIgnores(entries, order, k + 1, order[k], scope[order[k]]);
    InsertVisited(entries, scope, order, k, FirstCollision(entries, order, k));
  }

  /** Inserting the name at `k` and then the names visited after it is inserting the names visited from `k`. */
  lemma InsertVisited(entries: Env, scope: Env, order: seq<string>, k: nat, i: nat)
    requires k < i <= |order| && order[k] in scope
    ensures entries[order[k] := scope[order[k]]] + Restrict(scope, Visited(order, k + 1, i))
      == entries + Restrict(scope, Visited(order, k, i))
  {
    assert Visited(order, k, i) == {order[k]} + Visited(order, k + 1, i);
  }

  /**
   * The constructor of scoped_test_environment as written, visiting every name
   * of the scope in the order `order`. It throws exactly on a collision, like
   * `TestingEnvironment.Push`, but then leaves the names visited before the
   * colliding one in the global map; the destructor never runs for an object
   * whose constructor threw, so they are never erased.
   */
  function PushInOrder(entries: Env, scope: Env, order: seq<string>): (r: PushResult)
    requires forall i :: 0 <= i < |order| ==> order[i] in scope
    requires forall name :: name in scope ==> name in order
    requires forall i, j :: 0 <= i < j < |order| ==> order[i] != order[j]
    ensures r.threw <==> Collides(entries, scope)
    ensures !r.threw ==> r.entries == entries + scope
    ensures r.threw ==> r.entries == entries + Restrict(scope, Visited(order, 0, FirstCollision(entries, order, 0)))
  {
    var r := PushFrom(entries, scope, order, 0);
    if !r.threw then
      assert Restrict(scope, Visited(order, 0, |order|)) == scope;
      r
    else
      assert order[FirstCollision(entries, order, 0)] in scope;
      r
  }

  /**
   * A push that collides on its second name leaves its first name behind in the
   * global map, although the push failed.
   */
  lemma PushInOrderLeavesPartialScope()
    ensures var entries, scope := map["B" := "0"], map["A" := "1", "B" := "2"];
      var r := PushInOrder(entries, scope, ["A", "B"]);
      r.threw && r.entries == map["A" := "1", "B" := "0"] && r.entries != entries
  {
    var entries, scope := map["B" := "0"], map["A" := "1", "B" := "2"];
    var order := ["A", "B"];
    assert "B" in scope && "B" in entries;
    assert FirstCollision(entries, order, 1) == 1;
    assert FirstCollision(entries, order, 0) == 1;
    assert Visited(order, 0, 1) == {"A"};
    assert Restrict(scope, {"A"}) == map["A" := "1"];
  }
}
