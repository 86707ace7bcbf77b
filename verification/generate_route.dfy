/** License switch arbitration and per-instance route generation
    (`generate_routes` of the license pipeline).

    The instance listing and the live player probe are inputs; the function is
    pure. The deletion override runs inside the per-instance loop exactly as
    in the source, so its effect depends on the listing order. */
module GenerateRoute {
  import opened Common
  import opened ManifestTemplates
  import FoundryApi

  const BlockMode: string := "block"
  const StandbyService: string := "foundry-standby-page"
  const StandbyNamespace: string := "foundry-vtt"
  const DefaultGateway: string := "default-gateway"
  const DefaultBaseDomain: string := "k8s.orb.local"

  // ---- Inputs --------------------------------------------------------------

  datatype ParentRefSpec = ParentRefSpec(name: Option<string>, namespace: Option<string>)

  datatype GatewaySpec = GatewaySpec(parentRef: ParentRefSpec, dnsTarget: Option<string>, baseDomain: Option<string>)

  /** The FoundryLicense fields the pipeline reads. A missing
      `activeInstanceName` / `status.activeInstance` reads as the empty string.
      `switchMode` is None when the key is missing, which means "block", and
      Some(None) when it holds null or a value that is not a string. */
  datatype License = License(
    name: string,
    namespace: string,
    activeInstanceName: string,
    switchMode: Option<Option<string>>,
    gateway: GatewaySpec,
    statusActiveInstance: string)
  {
    function Mode(): Option<string> { switchMode.GetOr(Some(BlockMode)) }
    function GatewayName(): string { gateway.parentRef.name.GetOr(DefaultGateway) }
    function GatewayNamespace(): string { gateway.parentRef.namespace.GetOr(namespace) }
    function BaseDomain(): string { gateway.baseDomain.GetOr(DefaultBaseDomain) }
  }

  /** One entry of the FoundryInstance listing: its name, `spec.licenseRef.name`
      and the `scheduled-delete-at` annotation. */
  datatype InstanceItem = InstanceItem(name: string, licenseRef: Option<string>, scheduledDeleteAt: Option<string>)

  /** The dict `check_players` returned, as `generate_routes` reads it. */
  datatype ProbeStats = ProbeStats(connectedPlayers: Option<int>, error: Option<string>)

  // ---- Outputs -------------------------------------------------------------

  datatype RouteState = Active | Standby

  datatype Registered = Registered(name: string, state: RouteState)

  /** The status record; `warning` is `None` exactly when no warning key is written. */
  datatype LicenseStatus = LicenseStatus(activeInstance: string, registeredInstances: seq<Registered>, warning: Option<string>)

  datatype RouteFile = RouteFile(fileName: string, route: HttpRoute)

  /** `probedHost` is the hostname handed to the player probe, `None` if it was not called. */
  datatype Decision = Decision(holder: string, warning: Option<string>, probedHost: Option<string>)

  datatype RouteOutput = RouteOutput(status: LicenseStatus, routes: seq<RouteFile>, probedHost: Option<string>)

  // ---- Arbitration -----------------------------------------------------------

  predicate SwitchRequested(desired: string, current: string) {
    current != "" && desired != "" && current != desired
  }

  function ProbeHost(current: string, namespace: string): string {
    "foundry-" + current + "." + namespace + ".svc.cluster.local"
  }

  function ErrorWarning(desired: string, current: string, error: string): string {
    "Switch to '" + desired + "' blocked: Unable to verify player count on '" + current + "' (" + error + ")"
  }

  function PlayersWarning(desired: string, current: string, players: int): string {
    "Switch to '" + desired + "' blocked: " + IntToString(players) + " players connected to '" + current + "'"
  }

  function NoCredentialsWarning(desired: string): string {
    "Switch to '" + desired + "' blocked: No admin credentials available to check player count"
  }

  function DeletionWarning(name: string): string {
    "Instance '" + name + "' is scheduled for deletion and cannot be active"
  }

  /** The holder chosen before any deletion override (lines 39-68). The probe
      result is only meaningful when `probedHost` is `Some`. */
  function Arbitrate(desired: string, current: string, mode: Option<string>, adminKey: Option<string>,
                     probe: ProbeStats, namespace: string): (d: Decision)
    ensures d.holder == desired || d.holder == current
    ensures d.warning.Some? <==> d.holder != desired
    ensures d.probedHost.Some? <==> SwitchRequested(desired, current) && mode == Some(BlockMode) && Truthy(adminKey)
    ensures d.probedHost.Some? ==> d.probedHost.value == ProbeHost(current, namespace)
    ensures !SwitchRequested(desired, current) ==> d.holder == desired
    ensures mode != Some(BlockMode) ==> d.holder == desired
    ensures SwitchRequested(desired, current) && mode == Some(BlockMode) && !Truthy(adminKey) ==>
      d.holder == current && d.warning == Some(NoCredentialsWarning(desired))
    ensures d.probedHost.Some? && Truthy(probe.error) ==>
      d.holder == current && d.warning == Some(ErrorWarning(desired, current, probe.error.value))
    ensures d.probedHost.Some? && !Truthy(probe.error) ==>
      (d.holder == current <==> probe.connectedPlayers.GetOr(0) > 0)
    ensures d.probedHost.Some? && !Truthy(probe.error) && probe.connectedPlayers.GetOr(0) > 0 ==>
      d.warning == Some(PlayersWarning(desired, current, probe.connectedPlayers.GetOr(0)))
  {
    if SwitchRequested(desired, current) && mode == Some(BlockMode) then
      if Truthy(adminKey) then
        var host := Some(ProbeHost(current, namespace));
        var players := probe.connectedPlayers.GetOr(0);
        if Truthy(probe.error) then Decision(current, Some(ErrorWarning(desired, current, probe.error.value)), host)
        else if players > 0 then Decision(current, Some(PlayersWarning(desired, current, players)), host)
        else Decision(desired, None, host)
      else Decision(current, Some(NoCredentialsWarning(desired)), None)
    else Decision(desired, None, None)
  }

  /** A warning about an unverifiable probe names the instance it was about
      to switch to, the one that keeps the license, and the probe error. */
  lemma ErrorWarningIsInformative(desired: string, current: string, error: string)
    ensures Contains(ErrorWarning(desired, current, error), desired)
    ensures Contains(ErrorWarning(desired, current, error), current)
    ensures Contains(ErrorWarning(desired, current, error), error)
  {
    var w := ErrorWarning(desired, current, error);
    var a := "Switch to '";
    var b := "' blocked: Unable to verify player count on '";
    assert w == a + desired + (b + current + "' (" + error + ")");
    InfixContained(a, desired, b + current + "' (" + error + ")");
    assert w == (a + desired + b) + current + ("' (" + error + ")");
    InfixContained(a + desired + b, current, "' (" + error + ")");
    assert w == (a + desired + b + current + "' (") + error + ")";
    InfixContained(a + desired + b + current + "' (", error, ")");
  }

  /** A warning about connected players names both instances and the count. */
  lemma PlayersWarningIsInformative(desired: string, current: string, players: int)
    ensures Contains(PlayersWarning(desired, current, players), desired)
    ensures Contains(PlayersWarning(desired, current, players), current)
    ensures Contains(PlayersWarning(desired, current, players), IntToString(players))
  {
    var w := PlayersWarning(desired, current, players);
    var a := "Switch to '";
    var b := "' blocked: ";
    var c := " players connected to '";
    var n := IntToString(players);
    assert w == a + desired + (b + n + c + current + "'");
    InfixContained(a, desired, b + n + c + current + "'");
    assert w == (a + desired + b) + n + (c + current + "'");
    InfixContained(a + desired + b, n, c + current + "'");
    assert w == (a + desired + b + n + c) + current + "'";
    InfixContained(a + desired + b + n + c, current, "'");
  }

  /** What the probe reports feeds arbitration: a failed probe (no HTTP
      response) keeps the current holder, it is never read as "0 players". */
  function StatsOf(r: FoundryApi.ProbeReport): ProbeStats {
    ProbeStats(Some(r.connectedPlayers), r.error)
  }

  lemma FailedProbeBlocksSwitch(desired: string, current: string, adminKey: Option<string>,
                                namespace: string, now: string)
    requires SwitchRequested(desired, current) && Truthy(adminKey)
    ensures var d := Arbitrate(desired, current, Some(BlockMode), adminKey,
                               StatsOf(FoundryApi.CheckPlayers(None, now)), namespace);
      d.holder == current && d.warning == Some(ErrorWarning(desired, current, FoundryApi.ConnectionFailed))
  {
  }

  lemma EmptyServerAllowsSwitch(desired: string, current: string, adminKey: Option<string>,
                                namespace: string, now: string, world: Option<Json>)
    requires SwitchRequested(desired, current) && Truthy(adminKey)
    ensures var d := Arbitrate(desired, current, Some(BlockMode), adminKey,
                               StatsOf(FoundryApi.CheckPlayers(Some(FoundryApi.StatusBody(Some(0), world)), now)),
                               namespace);
      d.holder == desired && d.warning.None?
  {
  }

  // ---- The per-instance loop ---------------------------------------------------

  /** Loop state: current holder, latest warning, and what has been emitted so far. */
  datatype Acc = Acc(holder: string, warning: Option<string>, registered: seq<Registered>, routes: seq<RouteFile>)

  predicate Bound(item: InstanceItem, licenseName: string) {
    item.licenseRef == Some(licenseName)
  }

  predicate PendingDeletion(item: InstanceItem) {
    Truthy(item.scheduledDeleteAt)
  }

  function RouteFileName(name: string): string {
    "route-" + name + ".yaml"
  }

  /** The route written for one instance in the given state, with the
      `license` label added to the template's labels. */
  function RouteFor(lic: License, name: string, state: RouteState): (r: HttpRoute)
    ensures r.name == "foundry-id-" + name && r.namespace == lic.namespace
    ensures r.hostnames == [name + "." + lic.BaseDomain()]
    ensures r.parentRefs == [ParentRef(lic.GatewayName(), lic.GatewayNamespace())]
    ensures r.labels == InstanceLabels(name)["license" := lic.name]
    ensures state == Active ==> r.backendRefs == [BackendRef("foundry-" + name, None, 80)]
    ensures state == Standby ==> r.backendRefs == [BackendRef(StandbyService, Some(StandbyNamespace), 80)]
  {
    var backend := if state == Active then "foundry-" + name else StandbyService;
    var backendNs := if state == Active then None else Some(StandbyNamespace);
    var route := HttpRouteTemplate(name, lic.namespace, name + "." + lic.BaseDomain(),
                                   lic.GatewayName(), lic.GatewayNamespace(), backend, backendNs);
    route.(labels := route.labels["license" := lic.name])
  }

  /** One loop iteration (lines 84-134). An unbound instance is skipped; a
      bound one gets one entry and one route file, in the state the holder
      gives it after the deletion override. Only a pending instance that is
      the holder moves the holder, to the status holder or to nobody. */
  function Step(lic: License, acc: Acc, item: InstanceItem): (r: Acc)
    ensures !Bound(item, lic.name) ==> r == acc
    ensures Bound(item, lic.name) ==>
      && |r.registered| == |acc.registered| + 1
      && r.registered[..|acc.registered|] == acc.registered
      && r.registered[|acc.registered|].name == item.name
      && (r.registered[|acc.registered|].state == Active <==> item.name == r.holder)
      && r.routes == acc.routes + [RouteFile(RouteFileName(item.name),
                                             RouteFor(lic, item.name, r.registered[|acc.registered|].state))]
    ensures Bound(item, lic.name) && PendingDeletion(item) && item.name != "" ==>
      r.registered[|acc.registered|].state == Standby
    ensures r.holder in {acc.holder, lic.statusActiveInstance, ""}
    ensures r.holder != acc.holder || r.warning != acc.warning ==>
      && Bound(item, lic.name) && PendingDeletion(item) && item.name == acc.holder
      && r.warning == Some(DeletionWarning(item.name))
  {
    if !Bound(item, lic.name) then acc
    else
      var current := lic.statusActiveInstance;
      var overridden := PendingDeletion(item) && item.name == acc.holder;
      var holder := if overridden then (if current != item.name then current else "") else acc.holder;
      var warning := if overridden then Some(DeletionWarning(item.name)) else acc.warning;
      var state := if item.name == holder then Active else Standby;
      Acc(holder, warning, acc.registered + [Registered(item.name, state)],
          acc.routes + [RouteFile(RouteFileName(item.name), RouteFor(lic, item.name, state))])
  }

  /** The loop over the listing, as a left fold: it appends one entry and
      one route file per bound instance, in listing order, and the holder it
      ends with is the one it started with, the status holder or nobody; a
      changed holder always comes with a warning. */
  function Loop(lic: License, start: Acc, items: seq<InstanceItem>): (r: Acc)
    ensures Names(r.registered) == Names(start.registered) + BoundNames(items, lic.name)
    ensures |r.routes| == |start.routes| + |BoundNames(items, lic.name)|
    ensures r.registered[..|start.registered|] == start.registered
    ensures r.holder in {start.holder, lic.statusActiveInstance, ""}
    ensures r.holder != start.holder ==> r.warning.Some?
    ensures start.warning.Some? ==> r.warning.Some?
    ensures (forall k :: 0 <= k < |items| ==> !PendingDeletion(items[k])) ==>
      r.holder == start.holder && r.warning == start.warning
    decreases |items|
  {
    if |items| == 0 then start
    else
      var prev := Loop(lic, start, items[..|items| - 1]);
      var r := Step(lic, prev, items[|items| - 1]);
      assert forall k :: 0 <= k < |items| - 1 ==> items[..|items| - 1][k] == items[k];
      assert Bound(items[|items| - 1], lic.name) ==> Names(r.registered) == Names(prev.registered) + [items[|items| - 1].name];
      r
  }

  /** `generate_routes` with the probe result and the instance listing as
      inputs. The probe runs exactly for a switch requested in block mode with
      an admin key; every bound instance gets an entry and a route file; the
      reported holder is the desired one, the status holder or nobody, and it
      differs from the desired one only with a warning. */
  function GenerateRoutes(lic: License, adminKey: Option<string>, probe: ProbeStats,
                          items: seq<InstanceItem>): (out: RouteOutput)
    ensures Names(out.status.registeredInstances) == BoundNames(items, lic.name)
    ensures |out.routes| == |BoundNames(items, lic.name)|
    ensures out.probedHost.Some? <==>
      SwitchRequested(lic.activeInstanceName, lic.statusActiveInstance) && lic.Mode() == Some(BlockMode) && Truthy(adminKey)
    ensures out.status.activeInstance in {lic.activeInstanceName, lic.statusActiveInstance, ""}
    ensures out.status.warning.None? ==> out.status.activeInstance == lic.activeInstanceName
  {
    var d := Arbitrate(lic.activeInstanceName, lic.statusActiveInstance, lic.Mode(), adminKey,
                       probe, lic.namespace);
    var acc := Loop(lic, Acc(d.holder, d.warning, [], []), items);
    assert Names([]) == [];
    RouteOutput(LicenseStatus(acc.holder, acc.registered, acc.warning), acc.routes, d.probedHost)
  }

  /** A `switchMode` that is present but null is not "block": the pass runs
      exactly as in force mode, without probing the current instance. */
  lemma NullModeActsAsForce(lic: License, adminKey: Option<string>, probe: ProbeStats, items: seq<InstanceItem>)
    requires lic.switchMode == Some(None)
    ensures GenerateRoutes(lic, adminKey, probe, items)
         == GenerateRoutes(lic.(switchMode := Some(Some("force"))), adminKey, probe, items)
    ensures GenerateRoutes(lic, adminKey, probe, items).probedHost.None?
  {
    var forced := lic.(switchMode := Some(Some("force")));
    var d := Arbitrate(lic.activeInstanceName, lic.statusActiveInstance, lic.Mode(), adminKey, probe, lic.namespace);
    assert d == Arbitrate(forced.activeInstanceName, forced.statusActiveInstance, forced.Mode(), adminKey, probe, forced.namespace);
    LoopIgnoresMode(lic, forced, Acc(d.holder, d.warning, [], []), items);
  }

  /** The loop never reads the switch mode. */
  lemma {:induction false} LoopIgnoresMode(lic: License, other: License, start: Acc, items: seq<InstanceItem>)
    requires other == lic.(switchMode := other.switchMode)
    ensures Loop(lic, start, items) == Loop(other, start, items)
    decreases |items|
  {
    if |items| > 0 {
      LoopIgnoresMode(lic, other, start, items[..|items| - 1]);
    }
  }

  // ---- Properties of the loop ----------------------------------------------

  function BoundNames(items: seq<InstanceItem>, licenseName: string): (r: seq<string>)
    ensures |r| <= |items|
  {
    if |items| == 0 then []
    else
      var last := items[|items| - 1];
      BoundNames(items[..|items| - 1], licenseName) + (if Bound(last, licenseName) then [last.name] else [])
  }

  function Names(rs: seq<Registered>): (r: seq<string>)
    ensures |r| == |rs|
    ensures forall i :: 0 <= i < |rs| ==> r[i] == rs[i].name
  {
    seq(|rs|, i requires 0 <= i < |rs| => rs[i].name)
  }

  /** Loop invariant, first half: entries and route files correspond one to
      one, in order, to the bound instances seen, and every route agrees with
      its entry. */
  ghost predicate EntriesMatch(lic: License, acc: Acc, seen: seq<InstanceItem>) {
    && Names(acc.registered) == BoundNames(seen, lic.name)
    && |acc.routes| == |acc.registered|
    && (forall i :: 0 <= i < |acc.routes| ==>
          acc.routes[i] == RouteFile(RouteFileName(acc.registered[i].name),
                                     RouteFor(lic, acc.registered[i].name, acc.registered[i].state)))
  }

  /** Loop invariant, second half: every `active` entry is named after the
      current holder and is not pending deletion. */
  ghost predicate ActiveOk(acc: Acc, seen: seq<InstanceItem>, licenseName: string) {
    forall i :: 0 <= i < |acc.registered| && acc.registered[i].state == Active ==>
      acc.registered[i].name == acc.holder && acc.registered[i].name !in PendingNames(seen, licenseName)
  }

  ghost predicate Consistent(lic: License, acc: Acc, seen: seq<InstanceItem>) {
    EntriesMatch(lic, acc, seen) && ActiveOk(acc, seen, lic.name)
  }

  ghost predicate UniqueBoundNames(items: seq<InstanceItem>, licenseName: string) {
    forall i, j :: 0 <= i < j < |items| && Bound(items[i], licenseName) && Bound(items[j], licenseName) ==>
      items[i].name != items[j].name
  }

  lemma {:induction false} LoopConsistent(lic: License, start: Acc, items: seq<InstanceItem>)
    requires start.registered == [] && start.routes == []
    requires UniqueBoundNames(items, lic.name)
    requires forall k :: 0 <= k < |items| ==> items[k].name != ""
    ensures Consistent(lic, Loop(lic, start, items), items)
    decreases |items|
  {
    if |items| == 0 {
      assert Names([]) == [];
    } else {
      var prefix := items[..|items| - 1];
      var item := items[|items| - 1];
      assert forall k :: 0 <= k < |prefix| ==> prefix[k] == items[k];
      assert UniqueBoundNames(prefix, lic.name);
      LoopConsistent(lic, start, prefix);
      assert prefix + [item] == items;
      StepConsistent(lic, Loop(lic, start, prefix), prefix, item);
    }
  }

  /** One iteration keeps the loop invariant. */
  lemma StepConsistent(lic: License, acc: Acc, seen: seq<InstanceItem>, item: InstanceItem)
    requires Consistent(lic, acc, seen)
    requires UniqueBoundNames(seen + [item], lic.name)
    requires item.name != ""
    ensures Consistent(lic, Step(lic, acc, item), seen + [item])
  {
    var all := seen + [item];
    assert all[..|all| - 1] == seen && all[|all| - 1] == item;
    StepEntries(lic, acc, seen, item);
    if Bound(item, lic.name) {
      BoundNamesMembers(seen, lic.name);
      assert item.name !in BoundNames(seen, lic.name) by {
        forall k | 0 <= k < |seen| && Bound(seen[k], lic.name)
          ensures seen[k].name != item.name
        {
          assert all[k] == seen[k];
        }
      }
      StepActiveBound(lic, acc, seen, item);
    } else {
      PendingNamesSnoc(seen, item, lic.name);
    }
  }

  lemma StepEntries(lic: License, acc: Acc, seen: seq<InstanceItem>, item: InstanceItem)
    requires EntriesMatch(lic, acc, seen)
    ensures EntriesMatch(lic, Step(lic, acc, item), seen + [item])
  {
    var all := seen + [item];
    assert all[..|all| - 1] == seen && all[|all| - 1] == item;
    var next := Step(lic, acc, item);
    if Bound(item, lic.name) {
      assert Names(next.registered) == Names(acc.registered) + [item.name];
    }
  }

  lemma StepActiveBound(lic: License, acc: Acc, seen: seq<InstanceItem>, item: InstanceItem)
    requires EntriesMatch(lic, acc, seen) && ActiveOk(acc, seen, lic.name)
    requires Bound(item, lic.name) && item.name != ""
    requires item.name !in BoundNames(seen, lic.name)
    ensures ActiveOk(Step(lic, acc, item), seen + [item], lic.name)
  {
    var next := Step(lic, acc, item);
    var n := |acc.registered|;
    PendingNamesSnoc(seen, item, lic.name);
    PendingWithinBound(seen, lic.name);
    assert next.registered[..n] == acc.registered;
    forall i | 0 <= i < n
      ensures acc.registered[i].name != item.name
    {
      assert acc.registered[i].name == Names(acc.registered)[i];
    }
    assert item.name !in PendingNames(seen, lic.name);
    forall i | 0 <= i < |next.registered| && next.registered[i].state == Active
      ensures next.registered[i].name == next.holder
      ensures next.registered[i].name !in PendingNames(seen + [item], lic.name)
    {
      if i < n {
        assert next.registered[i] == acc.registered[i];
      }
    }
  }

  lemma PendingNamesSnoc(seen: seq<InstanceItem>, item: InstanceItem, licenseName: string)
    ensures PendingNames(seen + [item], licenseName)
         == PendingNames(seen, licenseName)
            + (if Bound(item, licenseName) && PendingDeletion(item) then {item.name} else {})
  {
    var all := seen + [item];
    assert forall k :: 0 <= k < |seen| ==> all[k] == seen[k];
    assert all[|seen|] == item;
  }

  /** Every pending name is a bound name. */
  lemma PendingWithinBound(items: seq<InstanceItem>, licenseName: string)
    ensures forall n :: n in PendingNames(items, licenseName) ==> n in BoundNames(items, licenseName)
  {
    BoundNamesMembers(items, licenseName);
  }

  lemma {:induction false} BoundNamesMembers(items: seq<InstanceItem>, licenseName: string)
    ensures forall n :: n in BoundNames(items, licenseName) <==>
      exists k :: 0 <= k < |items| && Bound(items[k], licenseName) && items[k].name == n
    decreases |items|
  {
    if |items| > 0 {
      var prefix := items[..|items| - 1];
      BoundNamesMembers(prefix, licenseName);
      forall n ensures n in BoundNames(items, licenseName) <==>
        exists k :: 0 <= k < |items| && Bound(items[k], licenseName) && items[k].name == n
      {
        if n in BoundNames(items, licenseName) && n !in BoundNames(prefix, licenseName) {
          assert items[|items| - 1].name == n;
        }
        if n in BoundNames(prefix, licenseName) {
          var k :| 0 <= k < |prefix| && Bound(prefix[k], licenseName) && prefix[k].name == n;
          assert items[k] == prefix[k];
        }
        if exists k :: 0 <= k < |items| && Bound(items[k], licenseName) && items[k].name == n {
          var k :| 0 <= k < |items| && Bound(items[k], licenseName) && items[k].name == n;
          if k < |prefix| { assert prefix[k] == items[k]; }
        }
      }
    }
  }

  /** Exactly the bound instances get one status entry and one
      `route-<name>.yaml` each, in listing order; each route's hostname is
      `<name>.<baseDomain>`, and its backend is the instance's own Service when
      the entry is `active` and the shared standby page otherwise. With unique
      names at most one entry is `active`, and it is named after the reported
      `activeInstance`. */
  lemma GenerateRoutesShape(lic: License, adminKey: Option<string>, probe: ProbeStats,
                            items: seq<InstanceItem>)
    requires UniqueBoundNames(items, lic.name)
    requires forall k :: 0 <= k < |items| ==> items[k].name != ""
    ensures var out := GenerateRoutes(lic, adminKey, probe, items);
            var reg := out.status.registeredInstances;
      && Names(reg) == BoundNames(items, lic.name)
      && |out.routes| == |reg|
      && (forall i :: 0 <= i < |reg| ==>
            && out.routes[i].fileName == "route-" + reg[i].name + ".yaml"
            && out.routes[i].route.hostnames == [reg[i].name + "." + lic.BaseDomain()]
            && (reg[i].state == Active ==>
                  out.routes[i].route.backendRefs == [BackendRef("foundry-" + reg[i].name, None, 80)])
            && (reg[i].state == Standby ==>
                  out.routes[i].route.backendRefs == [BackendRef(StandbyService, Some(StandbyNamespace), 80)]))
      && (forall i :: 0 <= i < |reg| && reg[i].state == Active ==>
            reg[i].name == out.status.activeInstance && reg[i].name !in PendingNames(items, lic.name))
      && (forall i, j :: 0 <= i < j < |reg| && reg[i].state == Active ==> reg[j].state != Active)
  {
    var d := Arbitrate(lic.activeInstanceName, lic.statusActiveInstance, lic.Mode(), adminKey,
                       probe, lic.namespace);
    var start := Acc(d.holder, d.warning, [], []);
    LoopConsistent(lic, start, items);
    var acc := Loop(lic, start, items);
    assert GenerateRoutes(lic, adminKey, probe, items)
        == RouteOutput(LicenseStatus(acc.holder, acc.registered, acc.warning), acc.routes, d.probedHost);
    ConsistentShape(lic, acc, items);
  }

  /** What the loop invariant says about the emitted entries and routes. */
  lemma ConsistentShape(lic: License, acc: Acc, items: seq<InstanceItem>)
    requires UniqueBoundNames(items, lic.name)
    requires Consistent(lic, acc, items)
    ensures var reg := acc.registered;
      && Names(reg) == BoundNames(items, lic.name)
      && |acc.routes| == |reg|
      && (forall i :: 0 <= i < |reg| ==>
            && acc.routes[i].fileName == "route-" + reg[i].name + ".yaml"
            && acc.routes[i].route.hostnames == [reg[i].name + "." + lic.BaseDomain()]
            && (reg[i].state == Active ==>
                  acc.routes[i].route.backendRefs == [BackendRef("foundry-" + reg[i].name, None, 80)])
            && (reg[i].state == Standby ==>
                  acc.routes[i].route.backendRefs == [BackendRef(StandbyService, Some(StandbyNamespace), 80)]))
      && (forall i :: 0 <= i < |reg| && reg[i].state == Active ==>
            reg[i].name == acc.holder && reg[i].name !in PendingNames(items, lic.name))
      && (forall i, j :: 0 <= i < j < |reg| && reg[i].state == Active ==> reg[j].state != Active)
  {
    var reg := acc.registered;
    forall i, j | 0 <= i < j < |reg| && reg[i].state == Active
      ensures reg[j].state != Active
    {
      if reg[j].state == Active {
        UniqueBoundNamesDistinct(items, lic.name, i, j);
      }
    }
  }

  /** The bound names of a listing with unique bound names are pairwise distinct. */
  lemma {:induction false} UniqueBoundNamesDistinct(items: seq<InstanceItem>, licenseName: string, i: int, j: int)
    requires UniqueBoundNames(items, licenseName)
    requires 0 <= i < j < |BoundNames(items, licenseName)|
    ensures BoundNames(items, licenseName)[i] != BoundNames(items, licenseName)[j]
    decreases |items|
  {
    var prefix := items[..|items| - 1];
    var last := items[|items| - 1];
    assert UniqueBoundNames(prefix, licenseName);
    var bp := BoundNames(prefix, licenseName);
    if j < |bp| {
      UniqueBoundNamesDistinct(prefix, licenseName, i, j);
    } else {
      BoundNamesMembers(prefix, licenseName);
      assert bp[i] in bp;
      var k :| 0 <= k < |prefix| && Bound(prefix[k], licenseName) && prefix[k].name == bp[i];
      assert items[k] == prefix[k];
    }
  }

  /** Names of the bound instances that carry a deletion timestamp. */
  function PendingNames(items: seq<InstanceItem>, licenseName: string): set<string> {
    set k | 0 <= k < |items| && Bound(items[k], licenseName) && PendingDeletion(items[k]) :: items[k].name
  }

  // ---- The deletion override, as written -------------------------------------

  /** Until a pending instance named after the holder is reached, the holder
      and the warning stay as they are. */
  lemma {:induction false} HolderKeptUntilReached(lic: License, start: Acc, items: seq<InstanceItem>)
    requires forall k :: 0 <= k < |items| && Bound(items[k], lic.name) && PendingDeletion(items[k]) ==>
               items[k].name != start.holder
    ensures Loop(lic, start, items).holder == start.holder
    ensures Loop(lic, start, items).warning == start.warning
    decreases |items|
  {
    if |items| > 0 {
      var prefix := items[..|items| - 1];
      assert forall k :: 0 <= k < |prefix| ==> prefix[k] == items[k];
      HolderKeptUntilReached(lic, start, prefix);
    }
  }

  /** Once the pending instance holding the license has been reached, the
      holder is never that instance again: it is the last confirmed holder or
      empty, and the deletion warning (or a later one) is set. */
  lemma {:induction false} OverrideSticks(lic: License, start: Acc, items: seq<InstanceItem>, k: int)
    requires 0 <= k < |items|
    requires Bound(items[k], lic.name) && PendingDeletion(items[k]) && items[k].name == start.holder
    requires UniqueBoundNames(items, lic.name)
    requires forall j :: 0 <= j < |items| ==> items[j].name != ""
    ensures var acc := Loop(lic, start, items);
      && acc.holder != start.holder
      && (acc.holder == "" || acc.holder == lic.statusActiveInstance)
      && acc.warning.Some?
    decreases |items|
  {
    var prefix := items[..|items| - 1];
    var item := items[|items| - 1];
    assert forall j :: 0 <= j < |prefix| ==> prefix[j] == items[j];
    if k == |items| - 1 {
      assert UniqueBoundNames(items, lic.name);
      HolderKeptUntilReached(lic, start, prefix);
    } else {
      OverrideSticks(lic, start, prefix, k);
    }
  }

  /** The whole pass: when arbitration picks an instance that is pending
      deletion, the reported `activeInstance` is not that instance but the last
      confirmed holder or empty, and the status carries a warning. */
  lemma PendingHolderOverridden(lic: License, adminKey: Option<string>, probe: ProbeStats,
                                items: seq<InstanceItem>, k: int)
    requires UniqueBoundNames(items, lic.name)
    requires forall j :: 0 <= j < |items| ==> items[j].name != ""
    requires 0 <= k < |items| && Bound(items[k], lic.name) && PendingDeletion(items[k])
    requires items[k].name == Arbitrate(lic.activeInstanceName, lic.statusActiveInstance, lic.Mode(),
                                         adminKey, probe, lic.namespace).holder
    ensures var st := GenerateRoutes(lic, adminKey, probe, items).status;
      && st.activeInstance != items[k].name
      && (st.activeInstance == "" || st.activeInstance == lic.statusActiveInstance)
      && st.warning.Some?
  {
    var d := Arbitrate(lic.activeInstanceName, lic.statusActiveInstance, lic.Mode(), adminKey,
                       probe, lic.namespace);
    OverrideSticks(lic, Acc(d.holder, d.warning, [], []), items, k);
  }

  /** With nothing pending deletion the loop only reports the arbitration
      decision: the status holder and warning are the decision's, and an entry
      is `active` exactly when it is named after the holder. */
  lemma {:induction false} NoPendingKeepsDecision(lic: License, start: Acc, items: seq<InstanceItem>)
    requires start.registered == []
    requires PendingNames(items, lic.name) == {}
    ensures var acc := Loop(lic, start, items);
      && acc.holder == start.holder && acc.warning == start.warning
      && forall i :: 0 <= i < |acc.registered| ==>
           (acc.registered[i].state == Active <==> acc.registered[i].name == start.holder)
    decreases |items|
  {
    if |items| > 0 {
      var prefix := items[..|items| - 1];
      var item := items[|items| - 1];
      assert forall j :: 0 <= j < |prefix| ==> prefix[j] == items[j];
      assert PendingNames(prefix, lic.name) == {} by {
        assert PendingNames(prefix, lic.name) <= PendingNames(items, lic.name);
      }
      assert Bound(item, lic.name) && PendingDeletion(item) ==>
        item.name in PendingNames(items, lic.name);
      NoPendingKeepsDecision(lic, start, prefix);
    }
  }

  /** The listing order matters, as written: arbitration switches to `b`, but
      `b` is pending deletion and listed after `a`. By the time `b` resets the
      holder to `a`, `a` has already been emitted on standby, so the reported
      `activeInstance` is `a` while no entry is `active`. */
  lemma OverrideAfterEmissionLeavesNoActiveEntry()
    ensures var lic := License("lic", "ns", "b", Some(Some("force")),
                               GatewaySpec(ParentRefSpec(None, None), None, None), "a");
            var items := [InstanceItem("a", Some("lic"), None), InstanceItem("b", Some("lic"), Some("2025-01-01T00:00:00"))];
            var st := GenerateRoutes(lic, None, ProbeStats(None, None), items).status;
      && st.activeInstance == "a"
      && st.registeredInstances == [Registered("a", Standby), Registered("b", Standby)]
      && st.warning == Some(DeletionWarning("b"))
  {
    var lic := License("lic", "ns", "b", Some(Some("force")), GatewaySpec(ParentRefSpec(None, None), None, None), "a");
    var a := InstanceItem("a", Some("lic"), None);
    var b := InstanceItem("b", Some("lic"), Some("2025-01-01T00:00:00"));
    var start := Acc("b", None, [], []);
    assert lic.Mode() == Some("force");
    assert Arbitrate("b", "a", Some("force"), None, ProbeStats(None, None), "ns") == Decision("b", None, None);
    LoopOfTwo(lic, start, a, b);
    var a1 := Step(lic, start, a);
    assert a1.holder == "b" && a1.warning == None && a1.registered == [Registered("a", Standby)];
    var a2 := Step(lic, a1, b);
    assert a2.holder == "a" && a2.warning == Some(DeletionWarning("b"));
    assert a2.registered == [Registered("a", Standby), Registered("b", Standby)];
  }

  /** The loop over a two-item listing is two steps. */
  lemma LoopOfTwo(lic: License, start: Acc, x: InstanceItem, y: InstanceItem)
    ensures Loop(lic, start, [x, y]) == Step(lic, Step(lic, start, x), y)
  {
    assert [x, y][..1] == [x] && [x][..0] == [];
    assert Loop(lic, start, [x]) == Step(lic, start, x);
  }

  /** A pending-deletion instance listed before the one it is reset to can end
      up as the reported holder: `a` is pending too, but was already passed. */
  lemma PendingCurrentCanBeReported()
    ensures var lic := License("lic", "ns", "b", Some(Some("force")),
                               GatewaySpec(ParentRefSpec(None, None), None, None), "a");
            var items := [InstanceItem("a", Some("lic"), Some("t")), InstanceItem("b", Some("lic"), Some("t"))];
            var st := GenerateRoutes(lic, None, ProbeStats(None, None), items).status;
      && st.activeInstance == "a" && "a" in PendingNames(items, "lic")
  {
    var lic := License("lic", "ns", "b", Some(Some("force")), GatewaySpec(ParentRefSpec(None, None), None, None), "a");
    var a := InstanceItem("a", Some("lic"), Some("t"));
    var b := InstanceItem("b", Some("lic"), Some("t"));
    var start := Acc("b", None, [], []);
    assert lic.Mode() == Some("force");
    assert Arbitrate("b", "a", Some("force"), None, ProbeStats(None, None), "ns") == Decision("b", None, None);
    LoopOfTwo(lic, start, a, b);
    var a1 := Step(lic, start, a);
    assert a1.holder == "b";
    assert Step(lic, a1, b).holder == "a";
    assert [a, b][0] == a && Bound(a, "lic") && PendingDeletion(a);
  }

  // ---- The deletion override, settled before emission --------------------------

  /** The override applied once, before any entry is emitted: a pending holder
      falls back to the last confirmed holder unless that is pending as well. */
  function SettleHolder(holder: string, current: string, pending: set<string>): (h: string)
    ensures h !in pending || h == ""
    ensures holder !in pending ==> h == holder
    ensures holder in pending ==> h == (if current in pending then "" else current)
  {
    if holder in pending then (if current in pending then "" else current) else holder
  }

  /** Emission with a fixed holder: one entry and route per bound instance. */
  function Emit(lic: License, holder: string, items: seq<InstanceItem>): (acc: Acc)
    ensures acc.holder == holder
    ensures Names(acc.registered) == BoundNames(items, lic.name)
    ensures |acc.routes| == |acc.registered|
    ensures forall i :: 0 <= i < |acc.registered| ==>
      && (acc.registered[i].state == Active <==> acc.registered[i].name == holder)
      && acc.routes[i] == RouteFile(RouteFileName(acc.registered[i].name),
                                    RouteFor(lic, acc.registered[i].name, acc.registered[i].state))
    decreases |items|
  {
    if |items| == 0 then Acc(holder, None, [], [])
    else
      var acc := Emit(lic, holder, items[..|items| - 1]);
      var item := items[|items| - 1];
      if !Bound(item, lic.name) then acc
      else
        var state := if item.name == holder then Active else Standby;
        var next := Acc(holder, None, acc.registered + [Registered(item.name, state)],
                        acc.routes + [RouteFile(RouteFileName(item.name), RouteFor(lic, item.name, state))]);
        assert Names(next.registered) == Names(acc.registered) + [item.name];
        next
  }

  /** `generate_routes` with the deletion override settled before the loop. */
  function GenerateRoutesSettled(lic: License, adminKey: Option<string>, probe: ProbeStats,
                                 items: seq<InstanceItem>): (out: RouteOutput)
    ensures var st := out.status;
      && Names(st.registeredInstances) == BoundNames(items, lic.name)
      && (st.activeInstance == "" || st.activeInstance !in PendingNames(items, lic.name))
      && (forall i :: 0 <= i < |st.registeredInstances| ==>
            (st.registeredInstances[i].state == Active <==> st.registeredInstances[i].name == st.activeInstance))
  {
    var d := Arbitrate(lic.activeInstanceName, lic.statusActiveInstance, lic.Mode(), adminKey,
                       probe, lic.namespace);
    var pending := PendingNames(items, lic.name);
    var holder := SettleHolder(d.holder, lic.statusActiveInstance, pending);
    var warning := if d.holder in pending then Some(DeletionWarning(d.holder)) else d.warning;
    var acc := Emit(lic, holder, items);
    RouteOutput(LicenseStatus(holder, acc.registered, warning), acc.routes, d.probedHost)
  }

  /** When nothing bound is pending deletion, the as-written pass and the
      settled one produce the same status and routes. */
  lemma SettledAgreesWithoutPending(lic: License, adminKey: Option<string>, probe: ProbeStats,
                                    items: seq<InstanceItem>)
    requires PendingNames(items, lic.name) == {}
    ensures GenerateRoutesSettled(lic, adminKey, probe, items) == GenerateRoutes(lic, adminKey, probe, items)
  {
    var d := Arbitrate(lic.activeInstanceName, lic.statusActiveInstance, lic.Mode(), adminKey,
                       probe, lic.namespace);
    var start := Acc(d.holder, d.warning, [], []);
    NoPendingKeepsDecision(lic, start, items);
    LoopConsistent0(lic, start, items);
    var a := Loop(lic, start, items);
    assert GenerateRoutes(lic, adminKey, probe, items)
        == RouteOutput(LicenseStatus(a.holder, a.registered, a.warning), a.routes, d.probedHost);
    var e := Emit(lic, d.holder, items);
    assert |a.registered| == |e.registered|;
    assert a.registered == e.registered by {
      forall i | 0 <= i < |a.registered| ensures a.registered[i] == e.registered[i] {
        assert a.registered[i].name == Names(a.registered)[i];
        assert e.registered[i].name == Names(e.registered)[i];
      }
    }
  }

  /** The entry/route half of the loop invariant needs no uniqueness. */
  lemma {:induction false} LoopConsistent0(lic: License, start: Acc, items: seq<InstanceItem>)
    requires start.registered == [] && start.routes == []
    ensures EntriesMatch(lic, Loop(lic, start, items), items)
    decreases |items|
  {
    if |items| == 0 {
      assert Names([]) == [];
    } else {
      var prefix := items[..|items| - 1];
      LoopConsistent0(lic, start, prefix);
      assert prefix + [items[|items| - 1]] == items;
      StepEntries(lic, Loop(lic, start, prefix), prefix, items[|items| - 1]);
    }
  }

  // ---- The route template call, as written -----------------------------------

  /** Keyword parameters `httproute_template` declares. */
  const RouteTemplateParameters: set<string> :=
    {"name", "namespace", "hostname", "gateway_name", "gateway_ns", "backend_service"}

  /** Keywords `generate_routes` passes to it. */
  const RouteCallKeywords: set<string> := RouteTemplateParameters + {"backend_ns"}

  /** `generate_routes` as written: the template call raises a TypeError for
      the first bound instance, so the pass only completes when nothing is bound. */
  function GenerateRoutesAsWritten(lic: License, adminKey: Option<string>, probe: ProbeStats,
                                   items: seq<InstanceItem>): (r: Result<RouteOutput>)
    ensures r.Success? <==> (BoundNames(items, lic.name) == [] || RouteCallKeywords <= RouteTemplateParameters)
  {
    if BoundNames(items, lic.name) != [] && !(RouteCallKeywords <= RouteTemplateParameters) then
      Failure("TypeError: httproute_template() got an unexpected keyword argument 'backend_ns'")
    else Success(GenerateRoutes(lic, adminKey, probe, items))
  }

  lemma RouteCallRejectedWhenAnyInstanceBound(lic: License, adminKey: Option<string>, probe: ProbeStats,
                                              items: seq<InstanceItem>)
    ensures RouteCallKeywords - RouteTemplateParameters == {"backend_ns"}
    ensures GenerateRoutesAsWritten(lic, adminKey, probe, items).Failure? <==> BoundNames(items, lic.name) != []
  {
    assert "backend_ns" in RouteCallKeywords - RouteTemplateParameters;
  }
}
