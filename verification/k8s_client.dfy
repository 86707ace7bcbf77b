/** The bot's Kubernetes client: the ExternalSecret readiness test, license
    activation and deactivation, and the bodies of the create requests.
    The cluster is a store of named objects in one namespace; what the API
    server answers to a patch or a create is an input. */
module K8sClient {
  import opened Common

  const CrdGroup: string := "foundry.platform"
  const CrdVersion: string := "v1alpha1"
  const NotConnected: string := "Kubernetes not connected"
  const SwitchBlocked: string := "Switch blocked: Players may be connected and switchMode is \"block\""
  const CreatedByIdAnnotation: string := "foundry.platform/created-by-id"
  const CreatedByNameAnnotation: string := "foundry.platform/created-by-name"
  const OwnerIdAnnotation: string := "foundry.platform/owner-id"
  const OwnerNameAnnotation: string := "foundry.platform/owner-name"

  function ApiVersion(): (r: string)
    ensures r == "foundry.platform/v1alpha1"
  {
    CrdGroup + "/" + CrdVersion
  }

  // ---------------------------------------------------------------------
  // is_external_secret_synced
  // ---------------------------------------------------------------------

  /** An ExternalSecret as the readiness test reads it: the dicts under
      `status.conditions`, empty when either level is missing. */
  datatype ExternalSecret = ExternalSecret(conditions: seq<map<string, Json>>)

  /** A condition reporting readiness: type "Ready" and status the string "True". */
  predicate ReadyTrue(cond: map<string, Json>) {
    && "type" in cond && cond["type"] == JStr("Ready")
    && "status" in cond && cond["status"] == JStr("True")
  }

  method IsExternalSecretSynced(es: ExternalSecret) returns (synced: bool)
    ensures synced <==> exists i :: 0 <= i < |es.conditions| && ReadyTrue(es.conditions[i])
  {
    var i := 0;
    while i < |es.conditions|
      invariant 0 <= i <= |es.conditions|
      invariant forall j :: 0 <= j < i ==> !ReadyTrue(es.conditions[j])
    {
      if ReadyTrue(es.conditions[i]) {
        return true;
      }
      i := i + 1;
    }
    return false;
  }

  /** Only the string "True" counts: a boolean status, or a Ready condition
      that is "False", leaves the secret unsynced. */
  method BooleanStatusIsNotSynced() returns (boolStatus: bool, falseStatus: bool)
    ensures !boolStatus && !falseStatus
  {
    var c1 := map["type" := JStr("Ready"), "status" := JBool(true)];
    var c2 := map["type" := JStr("Ready"), "status" := JStr("False")];
    boolStatus := IsExternalSecretSynced(ExternalSecret([c1]));
    assert !ReadyTrue(c1);
    falseStatus := IsExternalSecretSynced(ExternalSecret([c2, c1]));
    assert !ReadyTrue(c2);
  }

  // ---------------------------------------------------------------------
  // activate_instance / deactivate_instance
  // ---------------------------------------------------------------------

  /** A FoundryInstance as the switch reads it: `spec.licenseRef.name`. */
  datatype InstanceRes = InstanceRes(licenseRefName: Option<string>)

  /** A FoundryLicense as the switch reads it: `spec.activeInstanceName`. */
  datatype LicenseRes = LicenseRes(activeInstanceName: Option<string>)

  /** The objects the lookups find, by name, in the target namespace. */
  datatype Store = Store(instances: map<string, InstanceRes>, licenses: map<string, LicenseRes>)

  /** How the body of an API error parsed: not as a JSON dict (the `.get`
      on it fails), or as a dict whose `message` key may be missing. */
  datatype ErrorBody = Unparsable | ErrorDict(message: Option<string>)

  /** The API server's answer to a patch or a create. A rejection carries the
      HTTP status, the exception's `reason`, its `str()` text and its body. */
  datatype Reply = Accepted | Rejected(status: int, reason: string, text: string, body: ErrorBody)

  /** The result dict of a switch call, the merge patch it sent (None: no
      patch; Some(None): `activeInstanceName: null`), and the store after it. */
  datatype Switch = Switch(success: bool, message: string, licenseName: Option<string>,
                           patch: Option<Option<string>>, store: Store)

  /** The instance names a license through its licenseRef and that license exists. */
  predicate Resolvable(store: Store, name: string) {
    && name in store.instances
    && Truthy(store.instances[name].licenseRefName)
    && store.instances[name].licenseRefName.value in store.licenses
  }

  /** The lookups both switch calls share, from instance to license name. */
  function ResolveLicense(store: Store, name: string): (r: Result<string>)
    ensures r.Success? <==> Resolvable(store, name)
    ensures r.Success? ==> r.value == store.instances[name].licenseRefName.value
    ensures name !in store.instances ==> r == Failure("Instance \"" + name + "\" not found")
  {
    if name !in store.instances then Failure("Instance \"" + name + "\" not found")
    else
      var licenseName := store.instances[name].licenseRefName;
      if !Truthy(licenseName) then Failure("Instance \"" + name + "\" has no licenseRef")
      else if licenseName.value !in store.licenses then Failure("License \"" + licenseName.value + "\" not found")
      else Success(licenseName.value)
  }

  /** The store after a merge patch of `spec.activeInstanceName` on one license. */
  function SetHolder(store: Store, license: string, holder: Option<string>): Store {
    store.(licenses := store.licenses[license := LicenseRes(holder)])
  }

  /** Only that license's holder field changed. */
  predicate OnlyHolderChanged(before: Store, after: Store, license: string, holder: Option<string>) {
    && after.instances == before.instances
    && after.licenses.Keys == before.licenses.Keys
    && license in after.licenses
    && after.licenses[license].activeInstanceName == holder
    && forall l :: l in before.licenses && l != license ==> after.licenses[l] == before.licenses[l]
  }

  function PatchError(reply: Reply): string
    requires reply.Rejected?
  {
    "Failed to patch license: " + reply.reason
  }

  function Activate(connected: bool, store: Store, name: string, reply: Reply): (r: Switch)
    ensures !connected ==> !r.success && r.message == NotConnected
    ensures !(connected && Resolvable(store, name)) ==> !r.success && r.patch.None?
    ensures r.patch.None? || !r.success ==> r.store == store
    ensures r.store.licenses.Keys == store.licenses.Keys
    ensures r.patch.Some? ==> r.patch == Some(Some(name))
    ensures connected && Resolvable(store, name) ==>
      var license := store.instances[name].licenseRefName.value;
      && r.licenseName == Some(license)
      && (r.patch.None? <==> store.licenses[license].activeInstanceName == Some(name))
      && (r.success <==> r.patch.None? || reply.Accepted?)
      && (r.success ==> r.store.licenses[license].activeInstanceName == Some(name))
      && (r.success && r.patch.Some? ==> OnlyHolderChanged(store, r.store, license, Some(name)))
      && (r.patch.Some? && reply.Rejected? && reply.status == 422 ==> r.message == SwitchBlocked)
  {
    if !connected then Switch(false, NotConnected, None, None, store)
    else match ResolveLicense(store, name)
      case Failure(msg) => Switch(false, msg, None, None, store)
      case Success(license) =>
        if store.licenses[license].activeInstanceName == Some(name) then
          Switch(true, "Instance \"" + name + "\" is already active", Some(license), None, store)
        else
          var patch := Some(Some(name));
          match reply
          case Accepted =>
            Switch(true, "Activated \"" + name + "\" via license \"" + license + "\"", Some(license), patch,
                   SetHolder(store, license, Some(name)))
          case Rejected(status, _, _, _) =>
            if status == 422 then Switch(false, SwitchBlocked, Some(license), patch, store)
            else Switch(false, PatchError(reply), Some(license), patch, store)
  }

  function Deactivate(connected: bool, store: Store, name: string, reply: Reply): (r: Switch)
    ensures !connected ==> !r.success && r.message == NotConnected
    ensures !(connected && Resolvable(store, name)) ==> !r.success && r.patch.None?
    ensures r.patch.None? || !r.success ==> r.store == store
    ensures r.store.licenses.Keys == store.licenses.Keys
    ensures r.patch.Some? ==> r.patch == Some(None)
    ensures connected && Resolvable(store, name) ==>
      var license := store.instances[name].licenseRefName.value;
      && r.licenseName == Some(license)
      && (r.patch.Some? <==> store.licenses[license].activeInstanceName == Some(name))
      && (r.success <==> r.patch.None? || reply.Accepted?)
      && (r.success ==> r.store.licenses[license].activeInstanceName != Some(name))
      && (r.success && r.patch.Some? ==> OnlyHolderChanged(store, r.store, license, None))
      && (r.patch.Some? && reply.Rejected? ==>
            r.message == if reply.status != 422 then "Failed to patch license: " + reply.reason
                         else if reply.body.ErrorDict? && reply.body.message.Some? then "Validation error: " + reply.body.message.value
                         else "Validation error: " + reply.reason)
  {
    if !connected then Switch(false, NotConnected, None, None, store)
    else match ResolveLicense(store, name)
      case Failure(msg) => Switch(false, msg, None, None, store)
      case Success(license) =>
        if store.licenses[license].activeInstanceName != Some(name) then
          Switch(true, "Instance \"" + name + "\" is not currently active", Some(license), None, store)
        else
          var patch := Some(None);
          match reply
          case Accepted =>
            Switch(true, "Deactivated \"" + name + "\" - all instances now on standby", Some(license), patch,
                   SetHolder(store, license, None))
          case Rejected(status, reason, _, body) =>
            if status == 422 then
              var detail := match body
                case ErrorDict(message) => message.GetOr(reason)
                case Unparsable => reason;
              Switch(false, "Validation error: " + detail, Some(license), patch, store)
            else Switch(false, PatchError(reply), Some(license), patch, store)
  }

  /** Activating twice is harmless: the second call succeeds without a patch,
      whatever the server would have answered. */
  lemma ActivateIsIdempotent(store: Store, name: string, reply: Reply, again: Reply)
    requires Activate(true, store, name, reply).success
    ensures var first := Activate(true, store, name, reply);
      var second := Activate(true, first.store, name, again);
      second.success && second.patch.None? && second.store == first.store
  {
    var first := Activate(true, store, name, reply);
    assert Resolvable(first.store, name);
  }

  /** Deactivation undoes an activation: after both are accepted the
      license has no holder and nothing else has changed. */
  lemma DeactivateUndoesActivate(store: Store, name: string)
    requires Resolvable(store, name)
    requires store.licenses[store.instances[name].licenseRefName.value].activeInstanceName.None?
    ensures var up := Activate(true, store, name, Accepted);
      Deactivate(true, up.store, name, Accepted).store == store
  {
    var license := store.instances[name].licenseRefName.value;
    var up := Activate(true, store, name, Accepted);
    assert Resolvable(up.store, name);
    var down := Deactivate(true, up.store, name, Accepted);
    assert down.store.licenses == store.licenses;
  }

  /** Deactivating an instance that is not the holder never touches the cluster. */
  lemma DeactivateOthersIsNoOp(store: Store, name: string, reply: Reply)
    requires Resolvable(store, name)
    requires store.licenses[store.instances[name].licenseRefName.value].activeInstanceName != Some(name)
    ensures Deactivate(true, store, name, reply).success
    ensures Deactivate(true, store, name, reply).patch.None?
  {
  }

  // ---------------------------------------------------------------------
  // create_foundry_instance / create_foundry_password
  // ---------------------------------------------------------------------

  /** The result dict of a create call. */
  datatype Created = Created(success: bool, message: string)

  /** The `spec` of a new FoundryInstance: the licenseRef always, each
      optional setting only when it is truthy. */
  function InstanceSpec(licenseName: string, version: Option<string>, backend: Option<string>,
                        cpu: Option<string>, memory: Option<string>, secretName: Option<string>): (spec: map<string, Json>)
    ensures "licenseRef" in spec && spec["licenseRef"] == JObj(map["name" := JStr(licenseName)])
    ensures "foundryVersion" in spec <==> Truthy(version)
    ensures "foundryVersion" in spec ==> spec["foundryVersion"] == JStr(version.value)
    ensures "storageBackend" in spec <==> Truthy(backend)
    ensures "storageBackend" in spec ==> spec["storageBackend"] == JStr(backend.value)
    ensures "adminPasswordSecretRef" in spec <==> Truthy(secretName)
    ensures "adminPasswordSecretRef" in spec ==> spec["adminPasswordSecretRef"] == JObj(map["name" := JStr(secretName.value)])
    ensures "resources" in spec <==> Truthy(cpu) || Truthy(memory)
    ensures "resources" in spec ==>
      && spec["resources"].JObj?
      && ("cpu" in spec["resources"].fields <==> Truthy(cpu))
      && ("cpu" in spec["resources"].fields ==> spec["resources"].fields["cpu"] == JStr(cpu.value))
      && ("memory" in spec["resources"].fields <==> Truthy(memory))
      && ("memory" in spec["resources"].fields ==> spec["resources"].fields["memory"] == JStr(memory.value))
      && spec["resources"].fields.Keys <= {"cpu", "memory"}
    ensures spec.Keys <= {"licenseRef", "foundryVersion", "storageBackend", "resources", "adminPasswordSecretRef"}
  {
    var spec0 := map["licenseRef" := JObj(map["name" := JStr(licenseName)])];
    var spec1 := if Truthy(version) then spec0["foundryVersion" := JStr(version.value)] else spec0;
    var spec2 := if Truthy(backend) then spec1["storageBackend" := JStr(backend.value)] else spec1;
    var spec3 :=
      if Truthy(cpu) || Truthy(memory) then
        var res0: map<string, Json> := map[];
        var res1 := if Truthy(cpu) then res0["cpu" := JStr(cpu.value)] else res0;
        var res2 := if Truthy(memory) then res1["memory" := JStr(memory.value)] else res1;
        spec2["resources" := JObj(res2)]
      else spec2;
    if Truthy(secretName) then spec3["adminPasswordSecretRef" := JObj(map["name" := JStr(secretName.value)])] else spec3
  }

  /** Annotations for the given truthy values under their keys. */
  function Annotations(first: (string, Option<string>), second: (string, Option<string>)): (a: map<string, Json>)
    requires first.0 != second.0
    ensures first.0 in a <==> Truthy(first.1)
    ensures second.0 in a <==> Truthy(second.1)
    ensures first.0 in a ==> a[first.0] == JStr(first.1.value)
    ensures second.0 in a ==> a[second.0] == JStr(second.1.value)
    ensures a.Keys <= {first.0, second.0}
  {
    var a0: map<string, Json> := map[];
    var a1 := if Truthy(first.1) then a0[first.0 := JStr(first.1.value)] else a0;
    if Truthy(second.1) then a1[second.0 := JStr(second.1.value)] else a1
  }

  /** `metadata` of a new object; an empty `annotations` dict is dropped. */
  function CreateMetadata(name: string, namespace: string, annotations: map<string, Json>): (m: map<string, Json>)
    ensures "name" in m && m["name"] == JStr(name)
    ensures "namespace" in m && m["namespace"] == JStr(namespace)
    ensures "annotations" in m <==> |annotations| > 0
    ensures "annotations" in m ==> m["annotations"] == JObj(annotations)
    ensures m.Keys <= {"name", "namespace", "annotations"}
  {
    var m := map["name" := JStr(name), "namespace" := JStr(namespace)];
    if |annotations| == 0 then m else m["annotations" := JObj(annotations)]
  }

  /** `meta` names an object `name` in `ns` and carries exactly the truthy
      ones of the two annotations, with their values. */
  predicate DescribesMetadata(meta: Json, name: string, ns: string,
                              first: (string, Option<string>), second: (string, Option<string>)) {
    && meta.JObj?
    && meta.fields.Keys <= {"name", "namespace", "annotations"}
    && "name" in meta.fields && meta.fields["name"] == JStr(name)
    && "namespace" in meta.fields && meta.fields["namespace"] == JStr(ns)
    && ("annotations" in meta.fields <==> Truthy(first.1) || Truthy(second.1))
    && ("annotations" in meta.fields ==>
          var a := meta.fields["annotations"];
          && a.JObj? && a.fields.Keys <= {first.0, second.0}
          && (first.0 in a.fields <==> Truthy(first.1))
          && (first.0 in a.fields ==> a.fields[first.0] == JStr(first.1.value))
          && (second.0 in a.fields <==> Truthy(second.1))
          && (second.0 in a.fields ==> a.fields[second.0] == JStr(second.1.value)))
  }

  function Resource(kind: string, metadata: map<string, Json>, spec: map<string, Json>): (body: Json)
    ensures body.JObj? && body.fields.Keys == {"apiVersion", "kind", "metadata", "spec"}
    ensures body.fields["apiVersion"] == JStr(ApiVersion()) && body.fields["kind"] == JStr(kind)
    ensures body.fields["metadata"] == JObj(metadata) && body.fields["spec"] == JObj(spec)
  {
    JObj(map["apiVersion" := JStr(ApiVersion()), "kind" := JStr(kind),
             "metadata" := JObj(metadata), "spec" := JObj(spec)])
  }

  /** `namespace or FOUNDRY_NAMESPACE` */
  function TargetNamespace(namespace: Option<string>, defaultNamespace: string): (ns: string)
    ensures Truthy(namespace) ==> ns == namespace.value
    ensures !Truthy(namespace) ==> ns == defaultNamespace
  {
    if Truthy(namespace) then namespace.value else defaultNamespace
  }

  /** The FoundryInstance that `create_foundry_instance` submits. */
  function InstanceBody(name: string, licenseName: string, ns: string, version: Option<string>,
                        backend: Option<string>, cpu: Option<string>, memory: Option<string>,
                        createdById: Option<string>, createdByName: Option<string>,
                        secretName: Option<string>): (body: Json)
    ensures body.JObj? && body.fields.Keys == {"apiVersion", "kind", "metadata", "spec"}
    ensures body.fields["apiVersion"] == JStr("foundry.platform/v1alpha1")
    ensures body.fields["kind"] == JStr("FoundryInstance")
    ensures body.fields["spec"] == JObj(InstanceSpec(licenseName, version, backend, cpu, memory, secretName))
    ensures DescribesMetadata(body.fields["metadata"], name, ns,
                              (CreatedByIdAnnotation, createdById), (CreatedByNameAnnotation, createdByName))
  {
    var annotations := Annotations((CreatedByIdAnnotation, createdById), (CreatedByNameAnnotation, createdByName));
    assert Truthy(createdById) ==> CreatedByIdAnnotation in annotations;
    assert Truthy(createdByName) ==> CreatedByNameAnnotation in annotations;
    Resource("FoundryInstance", CreateMetadata(name, ns, annotations),
             InstanceSpec(licenseName, version, backend, cpu, memory, secretName))
  }

  /** The FoundryPassword that `create_foundry_password` submits. */
  function PasswordBody(name: string, passwordType: string, ns: string, instanceName: Option<string>,
                        ownerId: Option<string>, ownerName: Option<string>): (body: Json)
    ensures body.JObj? && body.fields.Keys == {"apiVersion", "kind", "metadata", "spec"}
    ensures body.fields["apiVersion"] == JStr("foundry.platform/v1alpha1")
    ensures body.fields["kind"] == JStr("FoundryPassword")
    ensures body.fields["spec"].JObj?
    ensures "type" in body.fields["spec"].fields && body.fields["spec"].fields["type"] == JStr(passwordType)
    ensures "instanceRef" in body.fields["spec"].fields <==> Truthy(instanceName)
    ensures "instanceRef" in body.fields["spec"].fields ==>
      body.fields["spec"].fields["instanceRef"] == JObj(map["name" := JStr(instanceName.value)])
    ensures body.fields["spec"].fields.Keys <= {"type", "instanceRef"}
    ensures DescribesMetadata(body.fields["metadata"], name, ns,
                              (OwnerIdAnnotation, ownerId), (OwnerNameAnnotation, ownerName))
  {
    var spec0 := map["type" := JStr(passwordType)];
    var spec := if Truthy(instanceName) then spec0["instanceRef" := JObj(map["name" := JStr(instanceName.value)])] else spec0;
    var annotations := Annotations((OwnerIdAnnotation, ownerId), (OwnerNameAnnotation, ownerName));
    assert Truthy(ownerId) ==> OwnerIdAnnotation in annotations;
    assert Truthy(ownerName) ==> OwnerNameAnnotation in annotations;
    Resource("FoundryPassword", CreateMetadata(name, ns, annotations), spec)
  }

  // ---------------------------------------------------------------------
  // Reading a create request back out of its body
  // ---------------------------------------------------------------------

  /** The arguments of `create_foundry_instance` that reach the cluster. */
  datatype InstanceRequest = InstanceRequest(
    name: string, licenseName: string, namespace: string, version: Option<string>,
    backend: Option<string>, cpu: Option<string>, memory: Option<string>,
    createdById: Option<string>, createdByName: Option<string>, secretName: Option<string>)

  /** The arguments of `create_foundry_password` that reach the cluster. */
  datatype PasswordRequest = PasswordRequest(
    name: string, passwordType: string, namespace: string, instanceName: Option<string>,
    ownerId: Option<string>, ownerName: Option<string>)

  /** The value under `key` of a JSON object; null when there is none. */
  function At(j: Json, key: string): Json {
    if j.JObj? && key in j.fields then j.fields[key] else JNull
  }

  /** The string under `key` of a JSON object, if there is one. */
  function StrAt(j: Json, key: string): Option<string> {
    if At(j, key).JStr? then Some(At(j, key).s) else None
  }

  /** An optional argument as the cluster sees it: a falsy one is left out. */
  function Kept(o: Option<string>): (r: Option<string>)
    ensures r.Some? <==> Truthy(o)
    ensures r.Some? ==> r == o
  {
    if Truthy(o) then o else None
  }

  /** The object's apiVersion and kind are `kind` of this CRD group. */
  predicate OfKind(body: Json, kind: string) {
    StrAt(body, "apiVersion") == Some(ApiVersion()) && StrAt(body, "kind") == Some(kind)
  }

  /** Reads a FoundryInstance create request back; None for anything else. */
  function ReadInstance(body: Json): Option<InstanceRequest> {
    var meta := At(body, "metadata");
    var spec := At(body, "spec");
    var annotations := At(meta, "annotations");
    if !OfKind(body, "FoundryInstance") then None
    else match (StrAt(meta, "name"), StrAt(meta, "namespace"), StrAt(At(spec, "licenseRef"), "name"))
      case (Some(name), Some(ns), Some(license)) =>
        Some(InstanceRequest(name, license, ns, StrAt(spec, "foundryVersion"), StrAt(spec, "storageBackend"),
                             StrAt(At(spec, "resources"), "cpu"), StrAt(At(spec, "resources"), "memory"),
                             StrAt(annotations, CreatedByIdAnnotation), StrAt(annotations, CreatedByNameAnnotation),
                             StrAt(At(spec, "adminPasswordSecretRef"), "name")))
      case _ => None
  }

  /** Reads a FoundryPassword create request back; None for anything else. */
  function ReadPassword(body: Json): Option<PasswordRequest> {
    var meta := At(body, "metadata");
    var spec := At(body, "spec");
    var annotations := At(meta, "annotations");
    if !OfKind(body, "FoundryPassword") then None
    else match (StrAt(meta, "name"), StrAt(meta, "namespace"), StrAt(spec, "type"))
      case (Some(name), Some(ns), Some(passwordType)) =>
        Some(PasswordRequest(name, passwordType, ns, StrAt(At(spec, "instanceRef"), "name"),
                             StrAt(annotations, OwnerIdAnnotation), StrAt(annotations, OwnerNameAnnotation)))
      case _ => None
  }

  /** Every argument of `create_foundry_instance` can be read back out of the
      body it submits, except that falsy optional settings are dropped. */
  lemma {:induction false} InstanceBodyRoundTrip(name: string, licenseName: string, ns: string,
                                                 version: Option<string>, backend: Option<string>,
                                                 cpu: Option<string>, memory: Option<string>,
                                                 createdById: Option<string>, createdByName: Option<string>,
                                                 secretName: Option<string>)
    ensures ReadInstance(InstanceBody(name, licenseName, ns, version, backend, cpu, memory,
                                      createdById, createdByName, secretName))
         == Some(InstanceRequest(name, licenseName, ns, Kept(version), Kept(backend), Kept(cpu), Kept(memory),
                                 Kept(createdById), Kept(createdByName), Kept(secretName)))
  {
    var body := InstanceBody(name, licenseName, ns, version, backend, cpu, memory, createdById, createdByName, secretName);
    var spec := At(body, "spec");
    var annotations := At(At(body, "metadata"), "annotations");
    assert StrAt(spec, "foundryVersion") == Kept(version);
    assert StrAt(spec, "storageBackend") == Kept(backend);
    assert StrAt(At(spec, "resources"), "cpu") == Kept(cpu);
    assert StrAt(At(spec, "resources"), "memory") == Kept(memory);
    assert StrAt(annotations, CreatedByIdAnnotation) == Kept(createdById);
    assert StrAt(annotations, CreatedByNameAnnotation) == Kept(createdByName);
    assert StrAt(At(spec, "adminPasswordSecretRef"), "name") == Kept(secretName);
  }

  /** Every argument of `create_foundry_password` can be read back out of the
      body it submits, except that falsy optional ones are dropped. */
  lemma {:induction false} PasswordBodyRoundTrip(name: string, passwordType: string, ns: string,
                                                 instanceName: Option<string>,
                                                 ownerId: Option<string>, ownerName: Option<string>)
    ensures ReadPassword(PasswordBody(name, passwordType, ns, instanceName, ownerId, ownerName))
         == Some(PasswordRequest(name, passwordType, ns, Kept(instanceName), Kept(ownerId), Kept(ownerName)))
  {
    var body := PasswordBody(name, passwordType, ns, instanceName, ownerId, ownerName);
    var annotations := At(At(body, "metadata"), "annotations");
    assert StrAt(At(At(body, "spec"), "instanceRef"), "name") == Kept(instanceName);
    assert StrAt(annotations, OwnerIdAnnotation) == Kept(ownerId);
    assert StrAt(annotations, OwnerNameAnnotation) == Kept(ownerName);
  }

  // ---------------------------------------------------------------------
  // The outcome of a create call
  // ---------------------------------------------------------------------

  /** The outcome of `create_foundry_instance` given the server's reply. */
  function CreateInstance(connected: bool, name: string, ns: string, reply: Reply): (r: Created)
    ensures r.success <==> connected && reply.Accepted?
    ensures !connected ==> r.message == NotConnected
    ensures r.success ==> r.message == "Created instance \"" + name + "\" in namespace \"" + ns + "\""
    ensures connected && reply.Rejected? && reply.status == 409 ==>
      r.message == "Instance \"" + name + "\" already exists"
    ensures connected && reply.Rejected? && reply.status == 422 ==>
      r.message == "Validation error: " + match reply.body
        case ErrorDict(Some(message)) => message
        case ErrorDict(None) => reply.text
        case Unparsable => reply.reason
    ensures connected && reply.Rejected? && reply.status != 409 && reply.status != 422 ==>
      r.message == "Failed to create instance: " + reply.reason
  {
    if !connected then Created(false, NotConnected)
    else match reply
      case Accepted => Created(true, "Created instance \"" + name + "\" in namespace \"" + ns + "\"")
      case Rejected(status, reason, text, body) =>
        if status == 409 then Created(false, "Instance \"" + name + "\" already exists")
        else if status == 422 then
          var detail := match body
            case ErrorDict(message) => message.GetOr(text)
            case Unparsable => reason;
          Created(false, "Validation error: " + detail)
        else Created(false, "Failed to create instance: " + reason)
  }

  /** The outcome of `create_foundry_password` given the server's reply. */
  function CreatePassword(connected: bool, name: string, reply: Reply): (r: Created)
    ensures r.success <==> connected && reply.Accepted?
    ensures !connected ==> r.message == NotConnected
    ensures r.success ==> r.message == "Created FoundryPassword \"" + name + "\""
    ensures connected && reply.Rejected? && reply.status == 409 ==>
      r.message == "FoundryPassword \"" + name + "\" already exists"
    ensures connected && reply.Rejected? && reply.status != 409 ==>
      r.message == "Failed to create FoundryPassword: " + reply.reason
  {
    if !connected then Created(false, NotConnected)
    else match reply
      case Accepted => Created(true, "Created FoundryPassword \"" + name + "\"")
      case Rejected(status, reason, _, _) =>
        if status == 409 then Created(false, "FoundryPassword \"" + name + "\" already exists")
        else Created(false, "Failed to create FoundryPassword: " + reason)
  }

  /** A name clash is a failure for both kinds of object, never a success. */
  lemma ConflictIsFailure(name: string, ns: string, reason: string, text: string, body: ErrorBody)
    ensures !CreateInstance(true, name, ns, Rejected(409, reason, text, body)).success
    ensures !CreatePassword(true, name, Rejected(409, reason, text, body)).success
  {
  }

  /** A validation error whose dict body has no `message` falls back to the
      exception text on create, and to its reason on deactivation. */
  lemma ValidationFallbacksDiffer(store: Store, name: string, ns: string, reason: string, text: string)
    requires Resolvable(store, name)
    requires store.licenses[store.instances[name].licenseRefName.value].activeInstanceName == Some(name)
    ensures CreateInstance(true, name, ns, Rejected(422, reason, text, ErrorDict(None))).message
         == "Validation error: " + text
    ensures Deactivate(true, store, name, Rejected(422, reason, text, ErrorDict(None))).message
         == "Validation error: " + reason
  {
  }
}
