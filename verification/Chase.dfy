/**
 Following a partial successor map.

 Every walker of the questionnaire graph (the preview walker, the top-level cursor and the
 loop-body cursor) moves from a node to the one its decision names, and stops at the first
 node that is undecided or already visited.  `Follow` is that walk, with its trail.
 */
module Chase {

  datatype Walk = Walk(trail: seq<string>, stop: string)

  function Follow(next: map<string, string>, at: string, visited: set<string>): Walk
    decreases next.Keys - visited
  {
    if at in visited || at !in next then
      Walk([], at)
    else
      var rest := Follow(next, next[at], visited + {at});
      Walk([at] + rest.trail, rest.stop)
  }

  ghost function Elems(s: seq<string>): set<string> {
    set x | x in s
  }

  /** `next'` makes the same decision as `next` on every node of the trail. */
  ghost predicate Keeps(next: map<string, string>, next': map<string, string>, trail: seq<string>) {
    forall id :: id in trail ==> id in next && id in next' && next'[id] == next[id]
  }

  /** Walking on from a decided, unvisited node puts it in front of the rest of the walk. */
  lemma FollowStep(next: map<string, string>, at: string, visited: set<string>)
    requires at in next && at !in visited
    ensures Follow(next, at, visited)
         == Walk([at] + Follow(next, next[at], visited + {at}).trail,
                 Follow(next, next[at], visited + {at}).stop)
  {
  }

  /** Where the walk goes after the i-th node of its trail. */
  function After(w: Walk, i: nat): string
    requires i < |w.trail|
  {
    if i + 1 < |w.trail| then w.trail[i + 1] else w.stop
  }

  /** The trail is a duplicate-free chain of decisions that leads from `at` to `stop`. */
  ghost predicate IsChain(next: map<string, string>, at: string, visited: set<string>, w: Walk) {
    && at == (if w.trail == [] then w.stop else w.trail[0])
    && (forall i :: 0 <= i < |w.trail| ==>
          w.trail[i] in next && w.trail[i] !in visited && next[w.trail[i]] == After(w, i))
    && (forall i, j :: 0 <= i < j < |w.trail| ==> w.trail[i] != w.trail[j])
    && (w.stop in next ==> w.stop in visited || w.stop in w.trail)
  }

  lemma {:induction false} TrailIsChain(next: map<string, string>, at: string, visited: set<string>)
    ensures IsChain(next, at, visited, Follow(next, at, visited))
    decreases next.Keys - visited
  {
    if at in visited || at !in next {
    } else {
      TrailIsChain(next, next[at], visited + {at});
      var rest := Follow(next, next[at], visited + {at});
      var w := Follow(next, at, visited);
      assert w == Walk([at] + rest.trail, rest.stop);
      assert After(w, 0) == next[at];
      forall i | 0 < i < |w.trail|
        ensures w.trail[i] in next && w.trail[i] !in visited + {at} && next[w.trail[i]] == After(w, i)
      {
        assert w.trail[i] == rest.trail[i - 1];
        assert After(w, i) == After(rest, i - 1);
      }
      forall i, j | 0 <= i < j < |w.trail| ensures w.trail[i] != w.trail[j] {
        assert w.trail[j] == rest.trail[j - 1];
      }
    }
  }

  /** A map that keeps every decision on the trail walks the same trail first, and then goes on
      from where the old walk stopped. */
  lemma {:induction false} FollowExtends(next: map<string, string>, next': map<string, string>, at: string, visited: set<string>)
    requires Keeps(next, next', Follow(next, at, visited).trail)
    ensures var w := Follow(next, at, visited);
      var more := Follow(next', w.stop, visited + Elems(w.trail));
      Follow(next', at, visited) == Walk(w.trail + more.trail, more.stop)
    decreases next.Keys - visited
  {
    if at in visited || at !in next {
      assert visited + Elems([]) == visited;
      assert [] + Follow(next', at, visited).trail == Follow(next', at, visited).trail;
    } else {
      hide Follow, Keeps, Elems;
      var rest := Follow(next, next[at], visited + {at});
      FollowStep(next, at, visited);
      KeepsRest(next, next', at, rest.trail);
      FollowExtends(next, next', next[at], visited + {at});
      FollowStep(next', at, visited);
      ElemsFront(visited, at, rest.trail);
      var more := Follow(next', rest.stop, visited + {at} + Elems(rest.trail));
      assert [at] + (rest.trail + more.trail) == [at] + rest.trail + more.trail;
    }
  }

  lemma KeepsRest(next: map<string, string>, next': map<string, string>, at: string, rest: seq<string>)
    requires Keeps(next, next', [at] + rest)
    ensures Keeps(next, next', rest) && at in next && at in next' && next'[at] == next[at]
  {
    assert at in [at] + rest;
    assert forall id :: id in rest ==> id in [at] + rest;
  }

  lemma ElemsFront(visited: set<string>, at: string, rest: seq<string>)
    ensures visited + Elems([at] + rest) == visited + {at} + Elems(rest)
  {
  }

  /** Deciding the node a walk stopped at puts it on the trail, after everything already there. */
  lemma FollowGrows(next: map<string, string>, next': map<string, string>, at: string)
    requires Keeps(next, next', Follow(next, at, {}).trail)
    requires var w := Follow(next, at, {}); w.stop !in w.trail && w.stop in next'
    ensures var w := Follow(next, at, {}); w.trail + [w.stop] <= Follow(next', at, {}).trail
  {
    var w := Follow(next, at, {});
    FollowExtends(next, next', at, {});
    assert {} + Elems(w.trail) == Elems(w.trail);
    FollowStep(next', w.stop, Elems(w.trail));
  }

  /** Walks over maps that agree on the trail and leave the stopping node undecided are the same. */
  lemma FollowSame(next: map<string, string>, next': map<string, string>, at: string)
    requires Keeps(next, next', Follow(next, at, {}).trail)
    requires var w := Follow(next, at, {}); w.stop in w.trail || w.stop !in next'
    ensures Follow(next', at, {}) == Follow(next, at, {})
  {
    var w := Follow(next, at, {});
    FollowExtends(next, next', at, {});
    assert Follow(next', w.stop, {} + Elems(w.trail)) == Walk([], w.stop);
  }

  /** Forgetting the decisions outside `kept` cuts the walk at its first node outside `kept`. */
  lemma {:induction false} FollowRestricted(next: map<string, string>, kept: map<string, string>, at: string, visited: set<string>)
    requires forall id :: id in kept ==> id in next && kept[id] == next[id]
    ensures var w := Follow(next, at, visited); var d := Follow(kept, at, visited);
      && d.trail <= w.trail
      && (|d.trail| < |w.trail| ==> d.stop == w.trail[|d.trail|] && d.stop !in kept)
      && (|d.trail| == |w.trail| ==> d == w)
    decreases next.Keys - visited
  {
    if at in visited || at !in next || at !in kept {
    } else {
      FollowRestricted(next, kept, next[at], visited + {at});
    }
  }

  /** A map that keeps the decisions before the i-th node of a trail, and leaves that node undecided,
      stops there. */
  lemma {:induction false} FollowCut(next: map<string, string>, next': map<string, string>, at: string, visited: set<string>, i: nat)
    requires var w := Follow(next, at, visited); i < |w.trail| && Keeps(next, next', w.trail[..i]) && w.trail[i] !in next'
    ensures var w := Follow(next, at, visited); Follow(next', at, visited) == Walk(w.trail[..i], w.trail[i])
    decreases i
  {
    hide Keeps;
    var w := Follow(next, at, visited);
    if i == 0 {
    } else {
      var rest := Follow(next, next[at], visited + {at});
      assert w.trail[..i] == [at] + rest.trail[..i - 1];
      KeepsRest(next, next', at, rest.trail[..i - 1]);
      FollowCut(next, next', next[at], visited + {at}, i - 1);
    }
  }

  // ── Loop invariants for an imperative walker ──────────────────────────────

  /** A walker that has decided `trail` and stands at `at` is on its way along the walk. */
  ghost predicate OnWay(next: map<string, string>, root: string, trail: seq<string>, at: string) {
    var rest := Follow(next, at, Elems(trail));
    Follow(next, root, {}) == Walk(trail + rest.trail, rest.stop)
  }

  lemma OnWayStart(next: map<string, string>, root: string)
    ensures OnWay(next, root, [], root)
  {
    assert Elems([]) == {};
    assert [] + Follow(next, root, {}).trail == Follow(next, root, {}).trail;
  }

  lemma OnWayStep(next: map<string, string>, root: string, trail: seq<string>, at: string)
    requires OnWay(next, root, trail, at) && at in next && at !in trail
    ensures OnWay(next, root, trail + [at], next[at])
  {
    assert Elems(trail + [at]) == Elems(trail) + {at};
    var rest := Follow(next, next[at], Elems(trail + [at]));
    assert trail + ([at] + rest.trail) == trail + [at] + rest.trail;
  }

  lemma OnWayStop(next: map<string, string>, root: string, trail: seq<string>, at: string)
    requires OnWay(next, root, trail, at) && (at in trail || at !in next)
    ensures Follow(next, root, {}) == Walk(trail, at)
  {
    assert trail + [] == trail;
  }
}
