/**
 When the order in which a hash map of role groups is iterated shows in what is published, and
 so when a pass over an unchanged cluster has something to write.
 */
module IterationOrder {
  import opened Common
  import opened Text
  import opened Names
  import opened Discovery
  import opened Reconcile
  import opened PassTheorems
  import opened Runs

  // ---- Concatenations in different orders ----

  ghost predicate Covers(texts: map<string, string>, groups: seq<string>) {
    forall g | g in groups :: g in texts
  }

  function Concat(texts: map<string, string>, groups: seq<string>): string
    requires Covers(texts, groups)
  {
    if groups == [] then ""
    else
      var front, last := groups[..|groups| - 1], groups[|groups| - 1];
      Concat(texts, front) + texts[last]
  }

  ghost predicate Commuting(texts: map<string, string>, groups: seq<string>)
    requires Covers(texts, groups)
  {
    forall g, h | g in groups && h in groups :: texts[g] + texts[h] == texts[h] + texts[g]
  }

  lemma {:induction false} ConcatAppend(texts: map<string, string>, a: seq<string>, b: seq<string>)
    requires Covers(texts, a) && Covers(texts, b) && Covers(texts, a + b)
    ensures Concat(texts, a + b) == Concat(texts, a) + Concat(texts, b)
    decreases |b|
  {
    if b == [] {
      assert a + b == a;
    } else {
      var front, last := b[..|b| - 1], b[|b| - 1];
      assert (a + b)[..|a + b| - 1] == a + front && (a + b)[|a + b| - 1] == last;
      ConcatAppend(texts, a, front);
    }
  }

  lemma {:induction false} CommutesWithAll(texts: map<string, string>, g: string, groups: seq<string>)
    requires Covers(texts, groups) && g in texts
    requires forall h | h in groups :: texts[g] + texts[h] == texts[h] + texts[g]
    ensures texts[g] + Concat(texts, groups) == Concat(texts, groups) + texts[g]
    decreases |groups|
  {
    if groups != [] {
      var front, last := groups[..|groups| - 1], groups[|groups| - 1];
      CommutesWithAll(texts, g, front);
      var rest := Concat(texts, front);
      calc {
        texts[g] + (rest + texts[last]);
        (texts[g] + rest) + texts[last];
        (rest + texts[g]) + texts[last];
        rest + (texts[g] + texts[last]);
        rest + (texts[last] + texts[g]);
        (rest + texts[last]) + texts[g];
      }
    }
  }

  function Without(groups: seq<string>, i: nat): seq<string>
    requires i < |groups|
  {
    groups[..i] + groups[i + 1..]
  }

  // A group whose text commutes with all others can be moved to the end.
  lemma MovedToTheEnd(texts: map<string, string>, groups: seq<string>, i: nat)
    requires i < |groups| && Covers(texts, groups) && Covers(texts, Without(groups, i))
    requires Commuting(texts, groups)
    ensures Concat(texts, groups) == Concat(texts, Without(groups, i)) + texts[groups[i]]
  {
    var before, after, g := groups[..i], groups[i + 1..], groups[i];
    assert groups == before + ([g] + after);
    ConcatOfOne(texts, g);
    ConcatAppend(texts, before, [g] + after);
    ConcatAppend(texts, [g], after);
    ConcatAppend(texts, before, after);
    CommutesWithAll(texts, g, after);
    Rearranged(Concat(texts, before), texts[g], Concat(texts, after));
  }

  lemma Rearranged(a: string, g: string, r: string)
    requires g + r == r + g
    ensures a + (g + r) == (a + r) + g
  {
  }

  lemma WithoutKeepsRest(groups: seq<string>, i: nat)
    requires i < |groups| && DistinctSeq(groups)
    ensures DistinctSeq(Without(groups, i))
    ensures forall g :: g in Without(groups, i) <==> g in groups && g != groups[i]
  {
    var rest := Without(groups, i);
    assert forall j | 0 <= j < |rest| :: rest[j] == groups[if j < i then j else j + 1];
    forall g | g in groups && g != groups[i]
      ensures g in rest
    {
      var j :| 0 <= j < |groups| && groups[j] == g;
      assert rest[if j < i then j else j - 1] == g;
    }
  }

  // Pairwise commuting texts have one concatenation, whatever the order.
  lemma {:induction false} AnyOrder(texts: map<string, string>, a: seq<string>, b: seq<string>)
    requires DistinctSeq(a) && DistinctSeq(b) && forall g :: g in a <==> g in b
    requires Covers(texts, a) && Covers(texts, b) && Commuting(texts, a)
    ensures Concat(texts, a) == Concat(texts, b)
    decreases |b|
  {
    if b == [] {
      assert Elems(a) == {};
    } else {
      var front, last := b[..|b| - 1], b[|b| - 1];
      assert last in a;
      var i :| 0 <= i < |a| && a[i] == last;
      assert Without(b, |b| - 1) == front;
      WithoutKeepsRest(a, i);
      WithoutKeepsRest(b, |b| - 1);
      MovedToTheEnd(texts, a, i);
      AnyOrder(texts, Without(a, i), front);
    }
  }

  // `g` and `h` first, the others after them.
  lemma TwoFirst(groups: seq<string>, g: string, h: string) returns (rest: seq<string>)
    requires DistinctSeq(groups) && g in groups && h in groups && g != h
    ensures DistinctSeq([g, h] + rest) && DistinctSeq([h, g] + rest)
    ensures forall x :: x in groups <==> x in [g, h] + rest
    ensures forall x :: x in groups <==> x in [h, g] + rest
  {
    var i :| 0 <= i < |groups| && groups[i] == g;
    var others := Without(groups, i);
    WithoutKeepsRest(groups, i);
    assert h in others;
    var j :| 0 <= j < |others| && others[j] == h;
    rest := Without(others, j);
    WithoutKeepsRest(others, j);
    assert g !in rest && h !in rest;
  }

  lemma SameThenCommute(texts: map<string, string>, g: string, h: string, rest: seq<string>)
    requires Covers(texts, [g, h] + rest) && Covers(texts, [h, g] + rest)
    requires Concat(texts, [g, h] + rest) == Concat(texts, [h, g] + rest)
    ensures texts[g] + texts[h] == texts[h] + texts[g]
  {
    assert Covers(texts, rest) by { assert forall x | x in rest :: x in [g, h] + rest; }
    assert g in [g, h] + rest && h in [g, h] + rest;
    ConcatOfTwo(texts, g, h);
    ConcatOfTwo(texts, h, g);
    ConcatAppend(texts, [g, h], rest);
    ConcatAppend(texts, [h, g], rest);
    SameSuffix(texts[g] + texts[h], texts[h] + texts[g], Concat(texts, rest));
  }

  lemma ConcatOfOne(texts: map<string, string>, g: string)
    requires g in texts
    ensures Concat(texts, [g]) == texts[g]
  {
    assert [g][..0] == [] && "" + texts[g] == texts[g];
  }

  lemma ConcatOfTwo(texts: map<string, string>, g: string, h: string)
    requires g in texts && h in texts
    ensures Concat(texts, [g, h]) == texts[g] + texts[h]
  {
    assert [g, h][..1] == [g];
    ConcatOfOne(texts, g);
  }

  // ---- What each group publishes ----

  // Each host and port, ended by a comma.
  function Terminated(hosts: Hosts): string {
    if hosts == [] then "" else RenderHost(hosts[0]) + "," + Terminated(hosts[1..])
  }

  lemma {:induction false} TerminatedAppend(x: Hosts, y: Hosts)
    ensures Terminated(x + y) == Terminated(x) + Terminated(y)
  {
    if x == [] {
      assert x + y == y;
    } else {
      assert (x + y)[1..] == x[1..] + y;
      TerminatedAppend(x[1..], y);
      var first := RenderHost(x[0]) + ",";
      assert first + (Terminated(x[1..]) + Terminated(y)) == (first + Terminated(x[1..])) + Terminated(y);
    }
  }

  lemma {:induction false} TerminatedPublished(hosts: Hosts)
    requires hosts != []
    ensures Terminated(hosts) == BootstrapServers(hosts) + ","
  {
    var rest := hosts[1..];
    if rest == [] {
      assert RenderHosts(hosts) == [RenderHost(hosts[0])];
      assert Terminated(rest) == "";
    } else {
      TerminatedPublished(rest);
      var servers := RenderHosts(hosts);
      assert servers[1..] == RenderHosts(rest) && |servers| > 1;
      assert BootstrapServers(hosts) == RenderHost(hosts[0]) + "," + BootstrapServers(rest);
    }
  }

  lemma SamePublishedIff(x: Hosts, y: Hosts)
    ensures BootstrapServers(x) == BootstrapServers(y) <==> Terminated(x) == Terminated(y)
  {
    if x != [] {
      TerminatedPublished(x);
      PublishedNotEmpty(x);
    }
    if y != [] {
      TerminatedPublished(y);
      PublishedNotEmpty(y);
    }
    if x != [] && y != [] && Terminated(x) == Terminated(y) {
      SameSuffix(BootstrapServers(x), BootstrapServers(y), ",");
    }
  }

  lemma {:induction false} CollectAppend(a: seq<Ingress>, b: seq<Ingress>, portName: string)
    ensures Collect(a + b, portName).Ok? <==> Collect(a, portName).Ok? && Collect(b, portName).Ok?
    ensures Collect(a + b, portName).Ok? ==>
              Collect(a + b, portName).value == Collect(a, portName).value + Collect(b, portName).value
  {
    if a == [] {
      assert a + b == b;
    } else {
      assert (a + b)[1..] == a[1..] + b;
      CollectAppend(a[1..], b, portName);
    }
  }

  // What `listener_hosts` finds in one Listener.
  function FoundAt(objects: Objects, spec: Spec, g: string): Result<Hosts, HostError> {
    Collect(AddressesOf(StatusAt(objects, ListenerKey(spec, g))), spec.security.DiscoveryPortName())
  }

  function HostsAt(objects: Objects, spec: Spec, g: string): Hosts {
    match FoundAt(objects, spec, g)
    case Ok(hosts) => hosts
    case Err(_) => []
  }

  function Texts(objects: Objects, spec: Spec, groups: seq<string>): map<string, string> {
    map g | g in groups :: Terminated(HostsAt(objects, spec, g))
  }

  lemma {:induction false} FoundByGroup(objects: Objects, spec: Spec, groups: seq<string>, texts: map<string, string>)
    requires forall g | g in groups :: g in texts && texts[g] == Terminated(HostsAt(objects, spec, g))
    ensures var found := ListenerHosts(ListenerStatuses(objects, spec, groups), spec.security.DiscoveryPortName());
            && (found.Ok? <==> forall g | g in groups :: FoundAt(objects, spec, g).Ok?)
            && (found.Ok? ==> Terminated(found.value) == Concat(texts, groups))
  {
    if groups != [] {
      var front, last := groups[..|groups| - 1], groups[|groups| - 1];
      var port := spec.security.DiscoveryPortName();
      var status := StatusAt(objects, ListenerKey(spec, last));
      assert groups == front + [last];
      FoundByGroup(objects, spec, front, texts);
      AddressesAppend(ListenerStatuses(objects, spec, front), [status]);
      assert [status][1..] == [];
      assert Addresses([status]) == AddressesOf(status);
      CollectAppend(Addresses(ListenerStatuses(objects, spec, front)), AddressesOf(status), port);
      if ListenerHosts(ListenerStatuses(objects, spec, groups), port).Ok? {
        TerminatedAppend(ListenerHosts(ListenerStatuses(objects, spec, front), port).value, HostsAt(objects, spec, last));
      }
    }
  }

  // ---- Every order ----

  ghost predicate SameInEveryOrder(objects: Objects, a: Spec) {
    forall b {:trigger SameUpToGroupOrder(a, b)} | SameUpToGroupOrder(a, b) && WellFormed(b) ::
      Servers(objects, b) == Servers(objects, a)
  }

  // The hosts of any two groups commute: one list repeats what the other repeats.
  ghost predicate HostsCommute(objects: Objects, a: Spec, groups: seq<string>) {
    forall g, h | g in groups && h in groups ::
      HostsAt(objects, a, g) + HostsAt(objects, a, h) == HostsAt(objects, a, h) + HostsAt(objects, a, g)
  }

  lemma PublishedInOrder(objects: Objects, a: Spec, b: Spec, texts: map<string, string>)
    requires SameUpToGroupOrder(a, b) && FoundHosts(objects, a).Ok?
    requires texts == Texts(objects, a, a.brokers.value.groups)
    ensures FoundHosts(objects, b).Ok?
    ensures Covers(texts, a.brokers.value.groups) && Covers(texts, b.brokers.value.groups)
    ensures Servers(objects, b) == Servers(objects, a)
       <==> Concat(texts, b.brokers.value.groups) == Concat(texts, a.brokers.value.groups)
  {
    forall g
      ensures HostsAt(objects, b, g) == HostsAt(objects, a, g) && FoundAt(objects, b, g) == FoundAt(objects, a, g)
    {
    }
    FoundByGroup(objects, a, a.brokers.value.groups, texts);
    FoundByGroup(objects, b, b.brokers.value.groups, texts);
    SamePublishedIff(FoundHosts(objects, a).value, FoundHosts(objects, b).value);
  }

  function WithGroups(a: Spec, groups: seq<string>): Spec
    requires a.brokers.Some?
  {
    a.(brokers := Some(a.brokers.value.(groups := groups)))
  }

  // Two groups whose texts do not commute are enough for the order to show.
  lemma IterationOrderShows(objects: Objects, a: Spec, g: string, h: string)
    requires a.brokers.Some? && WellFormed(a) && FoundHosts(objects, a).Ok?
    requires g in a.brokers.value.groups && h in a.brokers.value.groups
    requires Terminated(HostsAt(objects, a, g)) + Terminated(HostsAt(objects, a, h))
          != Terminated(HostsAt(objects, a, h)) + Terminated(HostsAt(objects, a, g))
    ensures !SameInEveryOrder(objects, a)
  {
    var texts := Texts(objects, a, a.brokers.value.groups);
    var rest := TwoFirst(a.brokers.value.groups, g, h);
    var b, c := WithGroups(a, [g, h] + rest), WithGroups(a, [h, g] + rest);
    PublishedInOrder(objects, a, b, texts);
    PublishedInOrder(objects, a, c, texts);
    assert SameUpToGroupOrder(a, b) && SameUpToGroupOrder(a, c) && WellFormed(b) && WellFormed(c);
    if SameInEveryOrder(objects, a) {
      SameThenCommute(texts, g, h, rest);
    }
  }

  // Every order publishes the same exactly when the texts of any two groups commute.
  lemma SameInEveryOrderIff(objects: Objects, a: Spec)
    requires a.brokers.Some? && WellFormed(a) && FoundHosts(objects, a).Ok?
    ensures SameInEveryOrder(objects, a) <==>
            Commuting(Texts(objects, a, a.brokers.value.groups), a.brokers.value.groups)
  {
    var groups := a.brokers.value.groups;
    var texts := Texts(objects, a, groups);
    if Commuting(texts, groups) {
      forall b | SameUpToGroupOrder(a, b) && WellFormed(b)
        ensures Servers(objects, b) == Servers(objects, a)
      {
        PublishedInOrder(objects, a, b, texts);
        AnyOrder(texts, groups, b.brokers.value.groups);
      }
    } else {
      var g, h :| g in groups && h in groups && texts[g] + texts[h] != texts[h] + texts[g];
      IterationOrderShows(objects, a, g, h);
    }
  }

  lemma TerminatedInjective(x: Hosts, y: Hosts)
    requires CommaFree(x) && CommaFree(y) && Terminated(x) == Terminated(y)
    ensures x == y
  {
    SamePublishedIff(x, y);
    PublishedDecodesIff(x);
    PublishedDecodesIff(y);
  }

  // For addresses without commas the texts commute when the lists of hosts do.
  lemma CommutingHosts(objects: Objects, a: Spec, groups: seq<string>)
    requires forall g | g in groups :: CommaFree(HostsAt(objects, a, g))
    ensures Commuting(Texts(objects, a, groups), groups) <==> HostsCommute(objects, a, groups)
  {
    forall g, h | g in groups && h in groups
      ensures Terminated(HostsAt(objects, a, g)) + Terminated(HostsAt(objects, a, h))
           == Terminated(HostsAt(objects, a, h)) + Terminated(HostsAt(objects, a, g))
         <==> HostsAt(objects, a, g) + HostsAt(objects, a, h) == HostsAt(objects, a, h) + HostsAt(objects, a, g)
    {
      CommuteIff(HostsAt(objects, a, g), HostsAt(objects, a, h));
    }
  }

  lemma CommuteIff(x: Hosts, y: Hosts)
    requires CommaFree(x) && CommaFree(y)
    ensures Terminated(x) + Terminated(y) == Terminated(y) + Terminated(x) <==> x + y == y + x
  {
    TerminatedAppend(x, y);
    TerminatedAppend(y, x);
    if Terminated(x + y) == Terminated(y + x) { TerminatedInjective(x + y, y + x); }
  }

  // ---- The second pass ----

  // However the groups are iterated, another successful pass changes nothing.
  ghost predicate IdleInEveryOrder(objects: Objects, a: Spec) {
    forall b, env {:trigger Pass(objects, b, env)}
      | SameUpToGroupOrder(a, b) && WellFormed(b) && Pass(objects, b, env).error.None? ::
      Pass(objects, b, env).objects == objects
  }

  lemma SameServersAfter(objects: Objects, a: Spec, b: Spec, env: Environment)
    requires SameUpToGroupOrder(a, b)
    ensures FoundHosts(Pass(objects, a, env).objects, b) == FoundHosts(objects, b)
  {
    var after, groups := Pass(objects, a, env).objects, b.brokers.value.groups;
    ListenersAreWanted(a);
    forall g | g in groups
      ensures StatusAt(after, ListenerKey(b, g)) == StatusAt(objects, ListenerKey(b, g))
    {
      assert ListenerKey(b, g) == ListenerKey(a, g);
      WantedKeepsStatus(objects, a, env, ListenerKey(a, g));
    }
    SameStatuses(after, objects, b, groups);
  }

  // A pass in which nothing outside fails.
  function Undisturbed(): Environment {
    Environment(_ => false, {})
  }

  lemma UndisturbedPass(objects: Objects, spec: Spec)
    requires spec.brokers.Some? && spec.security.Accepted() && FoundHosts(objects, spec).Ok?
    ensures Pass(objects, spec, Undisturbed()).error.None?
  {
    PassSucceedsIff(objects, spec, Undisturbed());
  }

  lemma SuccessIsAccepted(objects: Objects, spec: Spec, env: Environment)
    requires Pass(objects, spec, env).error.None?
    ensures spec.security.Accepted()
  {
    PassDeletes(objects, spec, env);
    CheckedIsAccepted(spec, env);
  }

  // After a successful pass every other one is idle, in whatever order it iterates the groups,
  // exactly when what any two groups publish commutes. The condition is about the statuses of
  // the Listeners before the first pass.
  lemma IdleInEveryOrderIff(objects: Objects, a: Spec, env: Environment)
    requires WellFormed(a) && Pass(objects, a, env).error.None?
    ensures IdleInEveryOrder(Pass(objects, a, env).objects, a) <==>
            Commuting(Texts(objects, a, a.brokers.value.groups), a.brokers.value.groups)
  {
    PassSucceedsIff(objects, a, env);
    SameInEveryOrderIff(objects, a);
    if SameInEveryOrder(objects, a) {
      SameIsIdle(objects, a, env);
    } else {
      var b :| SameUpToGroupOrder(a, b) && WellFormed(b) && Servers(objects, b) != Servers(objects, a);
      DifferentIsNotIdle(objects, a, b, env);
    }
  }

  lemma SameIsIdle(objects: Objects, a: Spec, env: Environment)
    requires Pass(objects, a, env).error.None? && SameInEveryOrder(objects, a)
    ensures IdleInEveryOrder(Pass(objects, a, env).objects, a)
  {
    var once := Pass(objects, a, env).objects;
    forall b, env' | SameUpToGroupOrder(a, b) && WellFormed(b) && Pass(once, b, env').error.None?
      ensures Pass(once, b, env').objects == once
    {
      SecondPassChangesNothingIff(objects, a, b, env, env');
      SameServersAfter(objects, a, b, env);
    }
  }

  lemma DifferentIsNotIdle(objects: Objects, a: Spec, b: Spec, env: Environment)
    requires Pass(objects, a, env).error.None? && FoundHosts(objects, a).Ok?
    requires SameUpToGroupOrder(a, b) && WellFormed(b) && Servers(objects, b) != Servers(objects, a)
    ensures !IdleInEveryOrder(Pass(objects, a, env).objects, a)
  {
    var once := Pass(objects, a, env).objects;
    PublishedInOrder(objects, a, b, Texts(objects, a, a.brokers.value.groups));
    SuccessIsAccepted(objects, a, env);
    SameServersAfter(objects, a, b, env);
    UndisturbedPass(once, b);
    SecondPassChangesNothingIff(objects, a, b, env, Undisturbed());
    assert Pass(once, b, Undisturbed()).objects != once;
  }

  // For addresses without commas: when the host lists of any two groups commute.
  lemma IdleIffHostsCommute(objects: Objects, a: Spec, env: Environment)
    requires WellFormed(a) && Pass(objects, a, env).error.None?
    requires forall g | g in a.brokers.value.groups :: CommaFree(HostsAt(objects, a, g))
    ensures IdleInEveryOrder(Pass(objects, a, env).objects, a) <==>
            HostsCommute(objects, a, a.brokers.value.groups)
  {
    IdleInEveryOrderIff(objects, a, env);
    CommutingHosts(objects, a, a.brokers.value.groups);
  }
}
