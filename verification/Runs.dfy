/**
 Whole runs: any sequence of passes over changing specifications, each failing anywhere,
 between what others do to the cluster.
 */
module Runs {
  import opened Common
  import opened Discovery
  import opened Reconcile
  import opened PassTheorems

  // Others write statuses, and create objects that are not the operator's.
  datatype Event =
    | Reconciled(spec: Spec, env: Environment)
    | StatusWritten(key: Key, status: Option<Status>)
    | ForeignCreated(key: Key, manifest: Manifest)

  function After(objects: Objects, e: Event): Objects {
    match e
    case Reconciled(spec, env) => Pass(objects, spec, env).objects
    case StatusWritten(key, status) =>
      if key in objects then objects[key := objects[key].(status := status)] else objects
    case ForeignCreated(key, manifest) =>
      if key in objects then objects else objects[key := Object(false, manifest, None)]
  }

  function Run(objects: Objects, events: seq<Event>): Objects {
    if events == [] then objects else After(Run(objects, events[..|events| - 1]), events[|events| - 1])
  }

  lemma RunStep(objects: Objects, events: seq<Event>, n: nat)
    requires n < |events|
    ensures Run(objects, events[..n + 1]) == After(Run(objects, events[..n]), events[n])
  {
    assert events[..n + 1][..n] == events[..n];
  }

  // ---- Safety ----

  // Whatever disappears, a pass in which every write succeeded removed it, because that pass's
  // specification does not want it.
  lemma DisappearanceIsJustified(objects: Objects, events: seq<Event>, n: nat, k: Key)
    requires n < |events|
    requires k in Run(objects, events[..n]) && k !in Run(objects, events[..n + 1])
    ensures events[n].Reconciled?
    ensures k !in Wanted(events[n].spec) && Run(objects, events[..n])[k].owned
    ensures CheckError(events[n].spec, events[n].env).None?
    ensures ApplyAll(Run(objects, events[..n]), events[n].spec, events[n].env).error.None?
    ensures forall w | w in Wanted(events[n].spec) :: !events[n].env.fails(Apply(w))
  {
    RunStep(objects, events, n);
    if events[n].Reconciled? {
      OnlyUnwantedIsDeleted(Run(objects, events[..n]), events[n].spec, events[n].env, k);
    }
  }

  ghost predicate AlwaysWanted(k: Key, events: seq<Event>) {
    forall i | 0 <= i < |events| && events[i].Reconciled? :: k in Wanted(events[i].spec)
  }

  // An object that every specification of a run wants is, once there, never absent again.
  lemma {:induction false} WantedIsNeverAbsent(objects: Objects, events: seq<Event>, n: nat, k: Key)
    requires n <= |events| && k in objects && AlwaysWanted(k, events)
    ensures k in Run(objects, events[..n])
    decreases n
  {
    if n > 0 {
      WantedIsNeverAbsent(objects, events, n - 1, k);
      if k !in Run(objects, events[..n]) {
        DisappearanceIsJustified(objects, events, n - 1, k);
      }
    }
  }

  // What the operator owns, it owned before or some pass wanted.
  lemma {:induction false} OwnedWasWanted(objects: Objects, events: seq<Event>, k: Key)
    requires k in OwnedKeys(Run(objects, events))
    ensures k in OwnedKeys(objects)
            || exists i :: 0 <= i < |events| && events[i].Reconciled? && k in Wanted(events[i].spec)
  {
    if events != [] {
      var front, last := events[..|events| - 1], events[|events| - 1];
      var before := Run(objects, front);
      if last.Reconciled? && k !in Wanted(last.spec) {
        UnwantedIsUntouched(before, last.spec, last.env, k);
      }
      if k in OwnedKeys(before) {
        OwnedWasWanted(objects, front, k);
        assert forall i | 0 <= i < |front| :: front[i] == events[i];
      } else {
        assert last.Reconciled? && events[|events| - 1] == last;
      }
    }
  }

  // A pass writes nothing that its specification does not want.
  lemma UnwantedIsUntouched(objects: Objects, spec: Spec, env: Environment, k: Key)
    requires k !in Wanted(spec)
    ensures var after := Pass(objects, spec, env).objects;
            && (k in after ==> k in objects && after[k] == objects[k])
            && (k in objects && !objects[k].owned ==> k in after)
  {
    if CheckError(spec, env).None? { PassWrites(objects, spec, env); }
  }

  // A pass, failed or not, keeps the statuses of the objects its specification wants.
  lemma WantedKeepsStatus(objects: Objects, spec: Spec, env: Environment, k: Key)
    requires k in Wanted(spec)
    ensures k in objects ==> k in Pass(objects, spec, env).objects
    ensures StatusAt(Pass(objects, spec, env).objects, k) == StatusAt(objects, k)
  {
    if CheckError(spec, env).None? { PassWrites(objects, spec, env); }
  }

  // ---- Convergence ----

  // After any run, one failure-free pass leaves exactly the wanted keys.
  lemma RunConverges(objects: Objects, events: seq<Event>, spec: Spec, env: Environment)
    requires Pass(Run(objects, events), spec, env).error.None?
    ensures var final := Run(objects, events + [Reconciled(spec, env)]);
            && OwnedKeys(final) == Wanted(spec)
            && forall k | k in Wanted(spec) ::
                 final[k].manifest == Desired(spec, Servers(Run(objects, events), spec), k)
  {
    assert (events + [Reconciled(spec, env)])[..|events|] == events;
    PassConverges(Run(objects, events), spec, env);
  }

  lemma ServersAfterPass(objects: Objects, spec: Spec, env: Environment)
    ensures Servers(Pass(objects, spec, env).objects, spec) == Servers(objects, spec)
  {
    if spec.brokers.Some? {
      ListenersAreWanted(spec);
      var after := Pass(objects, spec, env).objects;
      forall g | g in spec.brokers.value.groups
        ensures StatusAt(after, ListenerKey(spec, g)) == StatusAt(objects, ListenerKey(spec, g))
      {
        WantedKeepsStatus(objects, spec, env, ListenerKey(spec, g));
      }
      SameStatuses(after, objects, spec, spec.brokers.value.groups);
    }
  }

  // A pass, wherever it fails, does not change where a failure-free pass will end.
  lemma SettledAfterPass(objects: Objects, spec: Spec, env: Environment)
    ensures Settled(Pass(objects, spec, env).objects, spec) == Settled(objects, spec)
  {
    var after := Pass(objects, spec, env).objects;
    ServersAfterPass(objects, spec, env);
    forall k
      ensures k in Settled(after, spec) <==> k in Settled(objects, spec)
      ensures k in Settled(after, spec) ==> Settled(after, spec)[k] == Settled(objects, spec)[k]
    {
      if k in Wanted(spec) {
        WantedKeepsStatus(objects, spec, env, k);
      } else {
        UnwantedIsUntouched(objects, spec, env, k);
      }
    }
  }

  // Passes over one specification, as the retries of `error_policy` make them.
  function Retries(spec: Spec, envs: seq<Environment>): seq<Event> {
    seq(|envs|, i requires 0 <= i < |envs| => Reconciled(spec, envs[i]))
  }

  // However many passes fail, and wherever, the first that succeeds ends where a single
  // successful pass from the start would have ended.
  lemma {:induction false} RetriesConverge(objects: Objects, spec: Spec, envs: seq<Environment>, env: Environment)
    requires Pass(Run(objects, Retries(spec, envs)), spec, env).error.None?
    ensures Pass(Run(objects, Retries(spec, envs)), spec, env).objects == Settled(objects, spec)
  {
    PassSettles(Run(objects, Retries(spec, envs)), spec, env);
    SettledAfterRetries(objects, spec, envs);
  }

  lemma {:induction false} SettledAfterRetries(objects: Objects, spec: Spec, envs: seq<Environment>)
    ensures Settled(Run(objects, Retries(spec, envs)), spec) == Settled(objects, spec)
  {
    if envs != [] {
      var front := envs[..|envs| - 1];
      assert Retries(spec, envs)[..|envs| - 1] == Retries(spec, front);
      SettledAfterRetries(objects, spec, front);
      SettledAfterPass(Run(objects, Retries(spec, front)), spec, envs[|envs| - 1]);
    }
  }

  // ---- Before the Listeners have addresses ----

  ghost predicate NoAddresses(objects: Objects, spec: Spec, groups: seq<string>) {
    forall g | g in groups :: AddressesOf(StatusAt(objects, ListenerKey(spec, g))) == []
  }

  lemma {:induction false} AddressesIffAny(objects: Objects, spec: Spec, groups: seq<string>)
    ensures Addresses(ListenerStatuses(objects, spec, groups)) == [] <==> NoAddresses(objects, spec, groups)
  {
    if groups != [] {
      var front, last := groups[..|groups| - 1], groups[|groups| - 1];
      assert groups == front + [last] && last in groups;
      AddressesIffAny(objects, spec, front);
      var status := StatusAt(objects, ListenerKey(spec, last));
      assert [status][1..] == [];
      AddressesAppend(ListenerStatuses(objects, spec, front), [status]);
      assert Addresses([status]) == AddressesOf(status);
    }
  }

  lemma NoServersIff(objects: Objects, spec: Spec)
    requires spec.brokers.Some? && FoundHosts(objects, spec).Ok?
    ensures Servers(objects, spec) == "" <==> NoAddresses(objects, spec, spec.brokers.value.groups)
  {
    var hosts := FoundHosts(objects, spec).value;
    AddressesIffAny(objects, spec, spec.brokers.value.groups);
    CollectExact(Addresses(ListenerStatuses(objects, spec, spec.brokers.value.groups)), spec.security.DiscoveryPortName());
    if hosts != [] { PublishedNotEmpty(hosts); }
  }

  // A successful pass publishes an empty list of servers exactly when no Listener had an
  // address before it.
  lemma PublishesNothingIff(objects: Objects, spec: Spec, env: Environment)
    requires Pass(objects, spec, env).error.None?
    ensures var after := Pass(objects, spec, env).objects;
            (forall k | IsDiscoveryKey(spec, k) :: k in after && after[k].manifest.servers == Some(""))
            <==> NoAddresses(objects, spec, spec.brokers.value.groups)
  {
    PassSettles(objects, spec, env);
    PassFound(objects, spec, env);
    NoServersIff(objects, spec);
    DiscoveryIsWanted(spec);
    SettledPublishes(objects, spec, DiscoveryKey(spec));
    SettledPublishes(objects, spec, NodePortDiscoveryKey(spec));
  }

  lemma PassFound(objects: Objects, spec: Spec, env: Environment)
    requires Pass(objects, spec, env).error.None?
    ensures spec.brokers.Some? && FoundHosts(objects, spec).Ok?
  {
    PassDeletes(objects, spec, env);
    PassWrites(objects, spec, env);
  }

  lemma SettledPublishes(objects: Objects, spec: Spec, k: Key)
    requires k in Wanted(spec) && IsDiscoveryKey(spec, k)
    ensures k in Settled(objects, spec) && Settled(objects, spec)[k].manifest.servers == Some(Servers(objects, spec))
  {
  }

  // A pass that nothing outside makes fail succeeds before any Listener has an address, as the
  // first pass does from an empty cluster, and publishes an empty list of servers.
  lemma FirstPassPublishesNothing(objects: Objects, spec: Spec, env: Environment)
    requires spec.brokers.Some? && spec.security.Accepted()
    requires NoAddresses(objects, spec, spec.brokers.value.groups)
    requires forall op :: !env.fails(op)
    ensures Pass(objects, spec, env).error.None?
    ensures var after := Pass(objects, spec, env).objects;
            forall k | IsDiscoveryKey(spec, k) :: k in after && after[k].manifest.servers == Some("")
  {
    AddressesIffAny(objects, spec, spec.brokers.value.groups);
    assert FoundHosts(objects, spec) == Ok([]);
    PassSucceedsIff(objects, spec, env);
    PublishesNothingIff(objects, spec, env);
  }
}
