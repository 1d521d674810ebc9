/**
 `expandFeatures` of Cargo.nix: a worklist over a possibly cyclic feature map, and the
 proof that it computes reachability through that map.
 */
module Expansion {
  import opened Names

  type FeatureMap = map<string, seq<string>>

  // `featureMap."${feature}" or [ ]`
  function Enables(m: FeatureMap, feature: string): seq<string> {
    if feature in m then m[feature] else []
  }

  // `builtins.filter (f: !(seen ? "${f}"))`
  function Unseen(features: seq<string>, seen: set<string>): (r: seq<string>)
    ensures Elems(r) == Elems(features) - seen
  {
    if features == [] then []
    else
      assert features == [features[0]] + features[1..];
      (if features[0] in seen then [] else [features[0]]) + Unseen(features[1..], seen)
  }

  // The two halves of the termination measure. Popping an unseen feature shrinks the first;
  // popping a duplicate may push nothing that is already seen, so it shrinks the second.
  ghost function NotYetSeen(m: FeatureMap, seen: set<string>, queue: seq<string>): set<string> {
    (set f, g | f in m && g in m[f] :: g) + Elems(queue) - seen
  }

  ghost function SeenEntries(queue: seq<string>, seen: set<string>): nat {
    if queue == [] then 0
    else (if queue[0] in seen then 1 else 0) + SeenEntries(queue[1..], seen)
  }

  lemma {:induction false} SeenEntriesAppend(queue: seq<string>, more: seq<string>, seen: set<string>)
    requires Elems(more) !! seen
    ensures SeenEntries(queue + more, seen) == SeenEntries(queue, seen)
  {
    if queue == [] {
      assert queue + more == more;
      NothingSeen(more, seen);
    } else {
      assert (queue + more)[1..] == queue[1..] + more;
      SeenEntriesAppend(queue[1..], more, seen);
    }
  }

  lemma {:induction false} NothingSeen(queue: seq<string>, seen: set<string>)
    requires Elems(queue) !! seen
    ensures SeenEntries(queue, seen) == 0
  {
    if queue != [] {
      assert queue[0] in Elems(queue);
      assert Elems(queue[1..]) <= Elems(queue);
      NothingSeen(queue[1..], seen);
    }
  }

  lemma WorklistShrinks(m: FeatureMap, seen: set<string>, queue: seq<string>)
    requires queue != []
    ensures var seen' := seen + {queue[0]};
            var queue' := queue[1..] + Unseen(Enables(m, queue[0]), seen');
            && NotYetSeen(m, seen', queue') <= NotYetSeen(m, seen, queue)
            && (queue[0] !in seen ==> queue[0] !in NotYetSeen(m, seen', queue'))
            && (queue[0] in seen ==> SeenEntries(queue', seen') < SeenEntries(queue, seen))
  {
    var seen' := seen + {queue[0]};
    var enables := Unseen(Enables(m, queue[0]), seen');
    assert Elems(queue[1..] + enables) == Elems(queue[1..]) + Elems(enables);
    assert Elems(queue) == {queue[0]} + Elems(queue[1..]);
    if queue[0] in seen {
      assert seen' == seen;
      SeenEntriesAppend(queue[1..], enables, seen);
    }
  }

  // `expandFeaturesNoCycle`
  function ExpandNoCycle(m: FeatureMap, seen: set<string>, queue: seq<string>): seq<string>
    decreases NotYetSeen(m, seen, queue), SeenEntries(queue, seen)
  {
    if queue == [] then []
    else
      var feature := queue[0];
      var seen' := seen + {feature};
      var enables := Unseen(Enables(m, feature), seen');
      WorklistShrinks(m, seen, queue);
      assert feature !in seen ==> feature in NotYetSeen(m, seen, queue);
      [feature] + ExpandNoCycle(m, seen', queue[1..] + enables)
  }

  function ExpandFeatures(m: FeatureMap, features: seq<string>): seq<string> {
    SortedUnique(ExpandNoCycle(m, {}, features))
  }

  // The reference definition: a chain of feature-map entries from an input feature.
  ghost predicate Chain(m: FeatureMap, p: seq<string>) {
    && p != []
    && forall i | 0 <= i < |p| - 1 :: p[i + 1] in Enables(m, p[i])
  }

  ghost predicate Reachable(m: FeatureMap, from: set<string>, f: string) {
    exists p :: Chain(m, p) && p[0] in from && p[|p| - 1] == f
  }

  lemma ChainFrom(m: FeatureMap, first: string, from: set<string>, f: string)
    requires from <= Elems(Enables(m, first))
    requires Reachable(m, from, f)
    ensures Reachable(m, {first}, f)
  {
    var p :| Chain(m, p) && p[0] in from && p[|p| - 1] == f;
    var p' := [first] + p;
    forall i | 0 <= i < |p'| - 1
      ensures p'[i + 1] in Enables(m, p'[i])
    {
      if i > 0 { assert p[i] in Enables(m, p[i - 1]); }
    }
    assert Chain(m, p') && p'[0] in {first} && p'[|p'| - 1] == f;
  }

  lemma ReachableFromUnion(m: FeatureMap, a: set<string>, b: set<string>, f: string)
    ensures Reachable(m, a + b, f) <==> Reachable(m, a, f) || Reachable(m, b, f)
  {
    if Reachable(m, a + b, f) {
      var p :| Chain(m, p) && p[0] in a + b && p[|p| - 1] == f;
    }
    if Reachable(m, a, f) {
      var p :| Chain(m, p) && p[0] in a && p[|p| - 1] == f;
      assert p[0] in a + b;
    }
    if Reachable(m, b, f) {
      var p :| Chain(m, p) && p[0] in b && p[|p| - 1] == f;
      assert p[0] in a + b;
    }
  }

  // What the queue reaches after a pop, it reached before.
  lemma PopKeepsReach(m: FeatureMap, queue: seq<string>, enables: seq<string>, f: string)
    requires queue != []
    requires Elems(enables) <= Elems(Enables(m, queue[0]))
    requires Reachable(m, Elems(queue[1..] + enables), f)
    ensures Reachable(m, Elems(queue), f)
  {
    var rest := Elems(queue[1..]);
    assert Elems(queue) == {queue[0]} + rest;
    assert Elems(queue[1..] + enables) == rest + Elems(enables);
    ReachableFromUnion(m, rest, Elems(enables), f);
    ReachableFromUnion(m, {queue[0]}, rest, f);
    if Reachable(m, Elems(enables), f) {
      ChainFrom(m, queue[0], Elems(enables), f);
    }
  }

  lemma {:induction false} WorklistSound(m: FeatureMap, seen: set<string>, queue: seq<string>, f: string)
    requires f in ExpandNoCycle(m, seen, queue)
    ensures Reachable(m, Elems(queue), f)
    decreases NotYetSeen(m, seen, queue), SeenEntries(queue, seen)
  {
    var seen' := seen + {queue[0]};
    var enables := Unseen(Enables(m, queue[0]), seen');
    if f == queue[0] {
      assert Chain(m, [f]) && [f][0] in Elems(queue);
    } else {
      WorklistShrinks(m, seen, queue);
      WorklistSound(m, seen', queue[1..] + enables, f);
      PopKeepsReach(m, queue, enables, f);
    }
  }

  // Closed under the feature map, up to what had been seen before.
  ghost predicate ClosedUpTo(m: FeatureMap, features: set<string>, seen: set<string>) {
    forall f | f in features :: Elems(Enables(m, f)) <= features + seen
  }

  lemma {:induction false} WorklistClosed(m: FeatureMap, seen: set<string>, queue: seq<string>)
    ensures Elems(queue) <= Elems(ExpandNoCycle(m, seen, queue))
    ensures ClosedUpTo(m, Elems(ExpandNoCycle(m, seen, queue)), seen)
    decreases NotYetSeen(m, seen, queue), SeenEntries(queue, seen)
  {
    if queue != [] {
      var seen' := seen + {queue[0]};
      var enables := Unseen(Enables(m, queue[0]), seen');
      WorklistShrinks(m, seen, queue);
      WorklistClosed(m, seen', queue[1..] + enables);
      var r' := ExpandNoCycle(m, seen', queue[1..] + enables);
      assert Elems(ExpandNoCycle(m, seen, queue)) == {queue[0]} + Elems(r');
      assert Elems(queue) == {queue[0]} + Elems(queue[1..]);
      assert Elems(queue[1..] + enables) == Elems(queue[1..]) + Elems(enables);
    }
  }

  lemma {:induction false} ChainStaysIn(m: FeatureMap, closed: set<string>, p: seq<string>)
    requires ClosedUpTo(m, closed, {})
    requires Chain(m, p) && p[0] in closed
    ensures p[|p| - 1] in closed
  {
    if |p| > 1 {
      assert p[1] in Elems(Enables(m, p[0]));
      assert Chain(m, p[1..]) by {
        forall i | 0 <= i < |p[1..]| - 1
          ensures p[1..][i + 1] in Enables(m, p[1..][i])
        {
          assert p[i + 2] in Enables(m, p[i + 1]);
        }
      }
      ChainStaysIn(m, closed, p[1..]);
    }
  }

  // Sound and complete: exactly the reachable features, whatever cycles the map has and
  // however many duplicates pass through the worklist.
  lemma ExpandExact(m: FeatureMap, features: seq<string>, f: string)
    ensures StrictlySorted(ExpandFeatures(m, features))
    ensures f in ExpandFeatures(m, features) <==> Reachable(m, Elems(features), f)
  {
    var r := ExpandNoCycle(m, {}, features);
    assert f in ExpandFeatures(m, features) <==> f in Elems(r);
    if f in r {
      WorklistSound(m, {}, features, f);
    }
    if Reachable(m, Elems(features), f) {
      var p :| Chain(m, p) && p[0] in Elems(features) && p[|p| - 1] == f;
      WorklistClosed(m, {}, features);
      ChainStaysIn(m, Elems(r), p);
    }
  }

  // Expansion works feature by feature.
  lemma ExpandPointwise(m: FeatureMap, features: seq<string>, f: string)
    ensures f in ExpandFeatures(m, features) <==> exists x :: x in features && f in ExpandFeatures(m, [x])
  {
    ExpandExact(m, features, f);
    if f in ExpandFeatures(m, features) {
      var p :| Chain(m, p) && p[0] in Elems(features) && p[|p| - 1] == f;
      assert p[0] in Elems([p[0]]);
      ExpandExact(m, [p[0]], f);
    }
    forall x | x in features && f in ExpandFeatures(m, [x])
      ensures f in ExpandFeatures(m, features)
    {
      ExpandExact(m, [x], f);
      var p :| Chain(m, p) && p[0] in Elems([x]) && p[|p| - 1] == f;
      assert p[0] in Elems(features);
    }
  }

  // Expansion keeps its inputs and is closed under the feature map.
  lemma ExpandClosed(m: FeatureMap, features: seq<string>)
    ensures Elems(features) <= Elems(ExpandFeatures(m, features))
    ensures ClosedUpTo(m, Elems(ExpandFeatures(m, features)), {})
  {
    WorklistClosed(m, {}, features);
  }

  // It is the least such set.
  lemma ExpandLeast(m: FeatureMap, features: seq<string>, closed: set<string>)
    requires Elems(features) <= closed
    requires ClosedUpTo(m, closed, {})
    ensures Elems(ExpandFeatures(m, features)) <= closed
  {
    forall f | f in ExpandFeatures(m, features)
      ensures f in closed
    {
      ExpandExact(m, features, f);
      var p :| Chain(m, p) && p[0] in Elems(features) && p[|p| - 1] == f;
      ChainStaysIn(m, closed, p);
    }
  }
}
