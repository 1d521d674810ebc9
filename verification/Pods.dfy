/**
 Names of the objects of a cluster, and the pods it is expected to have (rust/crd/src/lib.rs).
 The role groups come from a hash map, so their iteration order is arbitrary.
 */
module Pods {
  import opened Common
  import opened Names
  import opened Text

  // `RoleGroupRef::object_name`
  function ObjectName(cluster: string, group: string): string {
    cluster + "-broker-" + group
  }

  function BootstrapServiceName(cluster: string, group: string): string {
    ObjectName(cluster, group) + "-bootstrap"
  }

  lemma ObjectNameInjective(cluster: string, g: string, h: string)
    requires ObjectName(cluster, g) == ObjectName(cluster, h)
    ensures g == h
  {
    SamePrefix(cluster + "-broker-", g, h);
  }

  lemma BootstrapServiceNameInjective(cluster: string, g: string, h: string)
    requires BootstrapServiceName(cluster, g) == BootstrapServiceName(cluster, h)
    ensures g == h
  {
    SameSuffix(ObjectName(cluster, g), ObjectName(cluster, h), "-bootstrap");
    ObjectNameInjective(cluster, g, h);
  }

  // ---- `KafkaCluster::pods` ----

  type Replicas = n: nat | n <= 65535

  type RoleGroups = map<string, Option<Replicas>>

  datatype KafkaPodRef = KafkaPodRef(namespace: string, roleGroupServiceName: string, podName: string)
  {
    function Fqdn(clusterDomain: string): string {
      podName + "." + roleGroupServiceName + "." + namespace + ".svc." + clusterDomain
    }
  }

  datatype PodsError = NoNamespace

  // `collect::<BTreeMap<_, _>>` of the pairs in iteration order.
  function Collected(pairs: seq<(string, Option<Replicas>)>): RoleGroups {
    if pairs == [] then map[]
    else Collected(pairs[..|pairs| - 1])[pairs[|pairs| - 1].0 := pairs[|pairs| - 1].1]
  }

  // `replicas.unwrap_or(0)`
  function Count(replicas: Option<Replicas>): nat {
    match replicas
    case Some(n) => n
    case None => 0
  }

  function IndicesUpTo(group: string, n: nat): seq<(string, nat)> {
    if n == 0 then [] else IndicesUpTo(group, n - 1) + [(group, n - 1)]
  }

  // The pods as pairs of group and index, group by group.
  function PodIndices(groups: RoleGroups, names: seq<string>): seq<(string, nat)>
    requires forall g | g in names :: g in groups
  {
    if names == [] then []
    else IndicesUpTo(names[0], Count(groups[names[0]])) + PodIndices(groups, names[1..])
  }

  function PodName(cluster: string, index: (string, nat)): string {
    ObjectName(cluster, index.0) + "-" + Decimal(index.1)
  }

  function PodRef(cluster: string, namespace: string, index: (string, nat)): KafkaPodRef {
    KafkaPodRef(namespace, ObjectName(cluster, index.0), PodName(cluster, index))
  }

  function PodRefs(cluster: string, namespace: string, indices: seq<(string, nat)>): seq<KafkaPodRef> {
    seq(|indices|, i requires 0 <= i < |indices| => PodRef(cluster, namespace, indices[i]))
  }

  function SortedIndices(pairs: seq<(string, Option<Replicas>)>): seq<(string, nat)> {
    var groups := Collected(pairs);
    var names := AttrNames(groups.Keys);
    assert forall g | g in names :: g in Elems(names);
    PodIndices(groups, names)
  }

  // An absent broker role has no role groups.
  function Pods(cluster: string, namespace: Option<string>, brokers: Option<seq<(string, Option<Replicas>)>>)
    : Result<seq<KafkaPodRef>, PodsError>
  {
    match namespace
    case None => Err(NoNamespace)
    case Some(ns) =>
      match brokers
      case None => Ok([])
      case Some(pairs) => Ok(PodRefs(cluster, ns, SortedIndices(pairs)))
  }

  // ---- Which pods, in which order ----

  // The keys of a hash map are distinct.
  ghost predicate DistinctGroups(pairs: seq<(string, Option<Replicas>)>) {
    forall i, j | 0 <= i < j < |pairs| :: pairs[i].0 != pairs[j].0
  }

  lemma {:induction false} CollectedExact(pairs: seq<(string, Option<Replicas>)>)
    requires DistinctGroups(pairs)
    ensures forall g :: g in Collected(pairs) <==> exists i :: 0 <= i < |pairs| && pairs[i].0 == g
    ensures forall i | 0 <= i < |pairs| :: pairs[i].0 in Collected(pairs) && Collected(pairs)[pairs[i].0] == pairs[i].1
  {
    if pairs != [] {
      var front := pairs[..|pairs| - 1];
      CollectedExact(front);
      assert forall i | 0 <= i < |front| :: front[i] == pairs[i];
      forall g | g in Collected(pairs)
        ensures exists i :: 0 <= i < |pairs| && pairs[i].0 == g
      {
        if g in Collected(front) {
          var i :| 0 <= i < |front| && front[i].0 == g;
          assert pairs[i].0 == g;
        } else {
          assert pairs[|pairs| - 1].0 == g;
        }
      }
    }
  }

  lemma {:induction false} IndicesExact(group: string, n: nat)
    ensures |IndicesUpTo(group, n)| == n
    ensures forall i | 0 <= i < n :: IndicesUpTo(group, n)[i] == (group, i)
  {
    if n > 0 { IndicesExact(group, n - 1); }
  }

  // Group by group in name order, and within a group by index.
  ghost predicate Before(a: (string, nat), b: (string, nat)) {
    Less(a.0, b.0) || (a.0 == b.0 && a.1 < b.1)
  }

  ghost predicate InOrder(indices: seq<(string, nat)>) {
    forall i, j {:trigger Before(indices[i], indices[j])} | 0 <= i < j < |indices| :: Before(indices[i], indices[j])
  }

  lemma {:induction false} PodIndicesExact(groups: RoleGroups, names: seq<string>)
    requires StrictlySorted(names) && forall g | g in names :: g in groups
    ensures InOrder(PodIndices(groups, names))
    ensures forall p: (string, nat) :: p in PodIndices(groups, names) <==> p.0 in names && p.1 < Count(groups[p.0])
  {
    if names != [] {
      var own := IndicesUpTo(names[0], Count(groups[names[0]]));
      var rest := PodIndices(groups, names[1..]);
      TailElems(names);
      PodIndicesExact(groups, names[1..]);
      IndicesExact(names[0], Count(groups[names[0]]));
      assert names == [names[0]] + names[1..];
      assert forall g :: g in names[1..] <==> g in Elems(names[1..]);
      forall i, j | 0 <= i < j < |own + rest|
        ensures Before((own + rest)[i], (own + rest)[j])
      {
        if i >= |own| {
          assert Before(rest[i - |own|], rest[j - |own|]);
        } else if j >= |own| {
          var p := rest[j - |own|];
          assert p in rest;
          HeadIsLeast(names, p.0);
        }
      }
      forall p: (string, nat)
        ensures p in own <==> p.0 == names[0] && p.1 < Count(groups[names[0]])
      {
        if p.0 == names[0] && p.1 < Count(groups[names[0]]) { assert own[p.1] == p; }
      }
    }
  }

  // The pods are those of every group up to its replicas, in order of group name and index.
  lemma PodsExact(cluster: string, namespace: string, pairs: seq<(string, Option<Replicas>)>)
    requires DistinctGroups(pairs)
    ensures InOrder(SortedIndices(pairs))
    ensures forall p: (string, nat) :: p in SortedIndices(pairs) <==>
                        exists i :: 0 <= i < |pairs| && pairs[i].0 == p.0 && pairs[i].1.Some? && p.1 < pairs[i].1.value
    ensures Pods(cluster, Some(namespace), Some(pairs)) == Ok(PodRefs(cluster, namespace, SortedIndices(pairs)))
  {
    var groups := Collected(pairs);
    var names := AttrNames(groups.Keys);
    assert forall g :: g in names <==> g in Elems(names);
    CollectedExact(pairs);
    PodIndicesExact(groups, names);
    forall p: (string, nat)
      ensures p in SortedIndices(pairs) <==> exists i :: 0 <= i < |pairs| && pairs[i].0 == p.0 && p.1 < Count(pairs[i].1)
    {
      if p in SortedIndices(pairs) {
        var i :| 0 <= i < |pairs| && pairs[i].0 == p.0;
        assert groups[p.0] == pairs[i].1;
      }
    }
  }

  // Any two iteration orders of the same hash map give the same pods.
  lemma PodsIgnoreIterationOrder(
      cluster: string, namespace: Option<string>,
      a: seq<(string, Option<Replicas>)>, b: seq<(string, Option<Replicas>)>)
    requires DistinctGroups(a) && DistinctGroups(b)
    requires forall p :: p in a <==> p in b
    ensures Pods(cluster, namespace, Some(a)) == Pods(cluster, namespace, Some(b))
  {
    CollectedExact(a);
    CollectedExact(b);
    var ma, mb := Collected(a), Collected(b);
    forall g | g in ma
      ensures g in mb && ma[g] == mb[g]
    {
      var i :| 0 <= i < |a| && a[i].0 == g;
      assert a[i] in b;
      var j :| 0 <= j < |b| && b[j] == a[i];
    }
    forall g | g in mb
      ensures g in ma
    {
      var j :| 0 <= j < |b| && b[j].0 == g;
      assert b[j] in a;
    }
    assert ma == mb;
  }

  // ---- How many ----

  function SumOver(groups: RoleGroups, names: seq<string>): nat
    requires forall g | g in names :: g in groups
  {
    if names == [] then 0 else Count(groups[names[0]]) + SumOver(groups, names[1..])
  }

  function SumReplicas(pairs: seq<(string, Option<Replicas>)>): nat {
    if pairs == [] then 0
    else SumReplicas(pairs[..|pairs| - 1]) + Count(pairs[|pairs| - 1].1)
  }

  lemma {:induction false} PodIndicesLength(groups: RoleGroups, names: seq<string>)
    requires forall g | g in names :: g in groups
    ensures |PodIndices(groups, names)| == SumOver(groups, names)
  {
    if names != [] {
      IndicesExact(names[0], Count(groups[names[0]]));
      PodIndicesLength(groups, names[1..]);
    }
  }

  ghost function SumOfSet(groups: RoleGroups, names: set<string>): nat
    requires names <= groups.Keys
  {
    var sorted := AttrNames(names);
    assert forall g | g in sorted :: g in Elems(sorted);
    SumOver(groups, sorted)
  }

  lemma {:induction false} SumWithout(groups: RoleGroups, names: set<string>, g: string)
    requires names <= groups.Keys && g in names
    ensures SumOfSet(groups, names) == Count(groups[g]) + SumOfSet(groups, names - {g})
    decreases |names|
  {
    var l := Least(names);
    assert AttrNames(names)[1..] == AttrNames(names - {l});
    if g != l {
      SumWithout(groups, names - {l}, g);
      assert names - {l} - {g} == names - {g} - {l};
      LeastUnique(names - {g}, Least(names - {g}), l);
      assert AttrNames(names - {g})[1..] == AttrNames(names - {g} - {l});
    }
  }

  lemma {:induction false} SumOfUnchanged(groups: RoleGroups, more: RoleGroups, names: seq<string>)
    requires forall g | g in names :: g in groups && g in more && groups[g] == more[g]
    ensures SumOver(groups, names) == SumOver(more, names)
  {
    if names != [] { SumOfUnchanged(groups, more, names[1..]); }
  }

  lemma {:induction false} SumCollected(pairs: seq<(string, Option<Replicas>)>)
    requires DistinctGroups(pairs)
    ensures SumOfSet(Collected(pairs), Collected(pairs).Keys) == SumReplicas(pairs)
  {
    if pairs != [] {
      var front, last := pairs[..|pairs| - 1], pairs[|pairs| - 1];
      assert DistinctGroups(front);
      SumCollected(front);
      CollectedExact(front);
      var before, after := Collected(front), Collected(pairs);
      assert last.0 !in before;
      SumWithout(after, after.Keys, last.0);
      assert after.Keys - {last.0} == before.Keys;
      var sorted := AttrNames(before.Keys);
      assert forall g | g in sorted :: g in Elems(sorted);
      SumOfUnchanged(before, after, sorted);
    }
  }

  // Exactly the sum of the replicas of all groups.
  lemma PodCount(cluster: string, namespace: string, pairs: seq<(string, Option<Replicas>)>)
    requires DistinctGroups(pairs)
    ensures |Pods(cluster, Some(namespace), Some(pairs)).value| == SumReplicas(pairs)
  {
    var groups := Collected(pairs);
    var names := AttrNames(groups.Keys);
    assert forall g | g in names :: g in Elems(names);
    PodIndicesLength(groups, names);
    SumCollected(pairs);
  }

  // ---- Distinct names ----

  lemma DecimalHasNoDash(n: nat)
    ensures '-' !in Decimal(n) && '.' !in Decimal(n)
  {
  }

  // A pod's name determines its group and index, although a group may be named like a pod.
  lemma PodNameInjective(cluster: string, a: (string, nat), b: (string, nat))
    requires PodName(cluster, a) == PodName(cluster, b)
    ensures a == b
  {
    DecimalHasNoDash(a.1);
    DecimalHasNoDash(b.1);
    SameTail(ObjectName(cluster, a.0), Decimal(a.1), ObjectName(cluster, b.0), Decimal(b.1), '-');
    ObjectNameInjective(cluster, a.0, b.0);
    DecimalInjective(a.1, b.1);
  }

  lemma PodNamesDistinct(cluster: string, namespace: string, pairs: seq<(string, Option<Replicas>)>)
    requires DistinctGroups(pairs)
    ensures var pods := Pods(cluster, Some(namespace), Some(pairs)).value;
            forall i, j | 0 <= i < j < |pods| :: pods[i].podName != pods[j].podName
  {
    PodsExact(cluster, namespace, pairs);
    var indices := SortedIndices(pairs);
    var pods := Pods(cluster, Some(namespace), Some(pairs)).value;
    forall i, j | 0 <= i < j < |pods|
      ensures pods[i].podName != pods[j].podName
    {
      assert Before(indices[i], indices[j]);
      if Less(indices[i].0, indices[j].0) { LessAsymmetric(indices[i].0, indices[j].0); }
      if pods[i].podName == pods[j].podName { PodNameInjective(cluster, indices[i], indices[j]); }
    }
  }

  // If one group's name is shorter than the other's, its pod's index would have to go on
  // with a dash.
  lemma ShorterGroupDiffers(cluster: string, namespace: string, clusterDomain: string, a: (string, nat), b: (string, nat))
    requires |a.0| < |b.0|
    ensures PodRef(cluster, namespace, a).Fqdn(clusterDomain) != PodRef(cluster, namespace, b).Fqdn(clusterDomain)
  {
    var x, y := PodRef(cluster, namespace, a).Fqdn(clusterDomain), PodRef(cluster, namespace, b).Fqdn(clusterDomain);
    var n, m := |ObjectName(cluster, a.0)|, |ObjectName(cluster, b.0)|;
    var index := Decimal(a.1);
    if |x| == |y| {
      assert n < m && m - n - 1 < |index|;
      assert x[m] == index[m - n - 1] && IsDigit(x[m]);
      assert y[m] == '-';
    }
  }

  function AfterIndex(group: string, namespace: string, clusterDomain: string): string {
    "." + group + "." + namespace + ".svc." + clusterDomain
  }

  function AfterGroup(group: string, namespace: string, clusterDomain: string, i: nat): string {
    "-" + (Decimal(i) + AfterIndex(group, namespace, clusterDomain))
  }

  lemma FqdnFromGroup(cluster: string, namespace: string, clusterDomain: string, a: (string, nat))
    ensures PodRef(cluster, namespace, a).Fqdn(clusterDomain)
         == ObjectName(cluster, a.0) + AfterGroup(ObjectName(cluster, a.0), namespace, clusterDomain, a.1)
  {
  }

  // A pod's fully qualified name determines its group and index, dots in names included.
  lemma FqdnInjective(cluster: string, namespace: string, clusterDomain: string, a: (string, nat), b: (string, nat))
    requires PodRef(cluster, namespace, a).Fqdn(clusterDomain) == PodRef(cluster, namespace, b).Fqdn(clusterDomain)
    ensures a == b
  {
    if |a.0| < |b.0| {
      ShorterGroupDiffers(cluster, namespace, clusterDomain, a, b);
    } else if |b.0| < |a.0| {
      ShorterGroupDiffers(cluster, namespace, clusterDomain, b, a);
    } else {
      FqdnFromGroup(cluster, namespace, clusterDomain, a);
      FqdnFromGroup(cluster, namespace, clusterDomain, b);
      var group, other := ObjectName(cluster, a.0), ObjectName(cluster, b.0);
      SameFront(group, AfterGroup(group, namespace, clusterDomain, a.1), other, AfterGroup(other, namespace, clusterDomain, b.1));
      ObjectNameInjective(cluster, a.0, b.0);
      SamePrefix("-", Decimal(a.1) + AfterIndex(group, namespace, clusterDomain), Decimal(b.1) + AfterIndex(group, namespace, clusterDomain));
      SameSuffix(Decimal(a.1), Decimal(b.1), AfterIndex(group, namespace, clusterDomain));
      DecimalInjective(a.1, b.1);
    }
  }

  lemma FqdnsDistinct(cluster: string, namespace: string, clusterDomain: string, pairs: seq<(string, Option<Replicas>)>)
    requires DistinctGroups(pairs)
    ensures var pods := Pods(cluster, Some(namespace), Some(pairs)).value;
            forall i, j | 0 <= i < j < |pods| :: pods[i].Fqdn(clusterDomain) != pods[j].Fqdn(clusterDomain)
  {
    PodsExact(cluster, namespace, pairs);
    var indices := SortedIndices(pairs);
    var pods := Pods(cluster, Some(namespace), Some(pairs)).value;
    forall i, j | 0 <= i < j < |pods|
      ensures pods[i].Fqdn(clusterDomain) != pods[j].Fqdn(clusterDomain)
    {
      assert Before(indices[i], indices[j]);
      if Less(indices[i].0, indices[j].0) { LessAsymmetric(indices[i].0, indices[j].0); }
      if pods[i].Fqdn(clusterDomain) == pods[j].Fqdn(clusterDomain) {
        FqdnInjective(cluster, namespace, clusterDomain, indices[i], indices[j]);
      }
    }
  }
}
