/** The FoundryInstance manifest step (`generate_manifests`): settings with
    their defaults, the volume choice, and the set of files written. */
module GenerateManifests {
  import opened Common
  import opened ManifestTemplates
  import SetupVolume

  const DefaultVersion: string := "13.347.0"
  const DefaultCpu: string := "100m"
  const DefaultMemory: string := "256Mi"
  const DefaultProxySsl: bool := true
  const DefaultProxyPort: int := 443
  const DefaultBaseDomain: string := "k8s.orb.local"
  const MonitorImage: string := "ghcr.io/you-randomly/kratix-foundry/instance-pipeline:latest"

  /** The FoundryInstance fields the step reads; None marks an absent key. */
  datatype InstanceSpec = InstanceSpec(
    name: Option<string>, namespace: Option<string>,
    foundryVersion: Option<string>, cpu: Option<string>, memory: Option<string>,
    proxySsl: Option<bool>, proxyPort: Option<int>, adminSecretName: Option<string>)

  /** One written output file. */
  datatype Manifest =
    | PvcManifest(pvc: Pvc)
    | DeploymentManifest(deployment: Deployment)
    | ServiceManifest(service: Service)
    | RbacManifest(rbac: RbacObject)

  /** The files written and the function's return value. */
  datatype Generated = Generated(files: map<string, Manifest>, passwordGenerated: bool, secretName: string)

  /** The admin secret: the referenced name when set, else `foundry-credentials-<name>`. */
  function SecretName(name: string, adminSecretName: Option<string>): (s: string)
    ensures Truthy(adminSecretName) ==> s == adminSecretName.value
    ensures !Truthy(adminSecretName) ==> s == "foundry-credentials-" + name
    ensures s != ""
  {
    if Truthy(adminSecretName) then adminSecretName.value else "foundry-credentials-" + name
  }

  function Hostname(name: string, baseDomain: string): string {
    name + "." + baseDomain
  }

  /** The data volume: the instance's claim for the pvc backend, the NFS
      export otherwise. */
  function VolumeDef(name: string, info: SetupVolume.VolumeInfo): (v: VolumeSource)
    ensures info.storageBackend == "pvc" ==> v == ClaimSource(PvcTemplate(name, "").name)
    ensures info.storageBackend != "pvc" ==> v == NfsSource(info.nfsServer, info.dataPath)
  {
    if info.storageBackend == "pvc" then ClaimSource(PvcName(name))
    else NfsSource(info.nfsServer, info.dataPath)
  }

  /** `rbac-<kind in lower case>.yaml` */
  function RbacFile(obj: RbacObject): string {
    "rbac-" + Lower(obj.Kind())
  }

  lemma RbacFileNames(rbac: seq<RbacObject>)
    requires |rbac| == 3 && rbac[0].ServiceAccount? && rbac[1].Role? && rbac[2].RoleBinding?
    ensures RbacFile(rbac[0]) == "rbac-serviceaccount"
    ensures RbacFile(rbac[1]) == "rbac-role"
    ensures RbacFile(rbac[2]) == "rbac-rolebinding"
  {
    assert Lower("ServiceAccount") == "serviceaccount";
    assert Lower("Role") == "role";
    assert Lower("RoleBinding") == "rolebinding";
  }

  /** The files every run writes, whatever the backend. */
  const CommonFiles: set<string> :=
    {"deployment.yaml", "service.yaml", "rbac-serviceaccount.yaml", "rbac-role.yaml", "rbac-rolebinding.yaml"}

  /** The Deployment for an instance, with the defaults filled in and the
      monitor sidecar attached. */
  function InstanceDeployment(name: string, ns: string, inst: InstanceSpec, info: SetupVolume.VolumeInfo,
                              baseDomain: string): (d: Deployment)
    ensures |d.containers| == 2 && |d.volumes| == 2
    ensures d.volumes[0] == Volume("data", VolumeDef(name, info))
    ensures d.containers[0].image == "felddy/foundryvtt:" + inst.foundryVersion.GetOr(DefaultVersion)
    ensures d.containers[0].requests == Some(Requests(inst.cpu.GetOr(DefaultCpu), inst.memory.GetOr(DefaultMemory)))
    ensures d.containers[0].env ==
      FoundryEnv(Hostname(name, baseDomain), inst.proxySsl.GetOr(DefaultProxySsl), inst.proxyPort.GetOr(DefaultProxyPort))
    ensures d.containers[1].image == MonitorImage
  {
    DeploymentTemplate(
      name, ns, inst.foundryVersion.GetOr(DefaultVersion), inst.cpu.GetOr(DefaultCpu),
      inst.memory.GetOr(DefaultMemory), Hostname(name, baseDomain),
      inst.proxySsl.GetOr(DefaultProxySsl), inst.proxyPort.GetOr(DefaultProxyPort),
      VolumeDef(name, info), Some(MonitorImage))
  }

  /** The output directory after a successful run. */
  function OutputFiles(name: string, ns: string, pvc: bool, deployment: Deployment): (files: map<string, Manifest>)
    ensures files.Keys == CommonFiles + (if pvc then {"pvc.yaml"} else {})
    ensures files["deployment.yaml"] == DeploymentManifest(deployment)
    ensures files["service.yaml"] == ServiceManifest(ServiceTemplate(name, ns))
    ensures pvc ==> files["pvc.yaml"] == PvcManifest(PvcTemplate(name, ns))
  {
    var rbac := RbacTemplates(name, ns);
    RbacFileNames(rbac);
    assert RbacFile(rbac[0]) + ".yaml" == "rbac-serviceaccount.yaml";
    assert RbacFile(rbac[1]) + ".yaml" == "rbac-role.yaml";
    assert RbacFile(rbac[2]) + ".yaml" == "rbac-rolebinding.yaml";
    var pvcFiles: map<string, Manifest> := if pvc then map["pvc.yaml" := PvcManifest(PvcTemplate(name, ns))] else map[];
    pvcFiles
      ["deployment.yaml" := DeploymentManifest(deployment)]
      ["service.yaml" := ServiceManifest(ServiceTemplate(name, ns))]
      [RbacFile(rbac[0]) + ".yaml" := RbacManifest(rbac[0])]
      [RbacFile(rbac[1]) + ".yaml" := RbacManifest(rbac[1])]
      [RbacFile(rbac[2]) + ".yaml" := RbacManifest(rbac[2])]
  }

  /** `generate_manifests` with the deployment call made with the arguments
      `deployment_template` accepts. */
  function Generate(inst: InstanceSpec, info: SetupVolume.VolumeInfo, baseDomain: string): (r: Result<Generated>)
    ensures r.Success? <==> inst.name.Some? && inst.namespace.Some?
    ensures r.Success? ==>
      var name := inst.name.value;
      && !r.value.passwordGenerated
      && r.value.secretName == SecretName(name, inst.adminSecretName)
      && r.value.files == OutputFiles(name, inst.namespace.value, info.storageBackend == "pvc",
                                      InstanceDeployment(name, inst.namespace.value, inst, info, baseDomain))
  {
    if inst.name.None? || inst.namespace.None? then Failure("KeyError: metadata")
    else
      var name := inst.name.value;
      var ns := inst.namespace.value;
      Success(Generated(
        OutputFiles(name, ns, info.storageBackend == "pvc", InstanceDeployment(name, ns, inst, info, baseDomain)),
        false, SecretName(name, inst.adminSecretName)))
  }

  /** The keyword arguments the source passes to `deployment_template`, and
      the parameters that function declares. */
  const DeploymentCallKeywords: set<string> :=
    {"name", "namespace", "version", "cpu", "memory", "hostname", "proxy_ssl", "proxy_port",
     "volume_def", "admin_secret_name", "monitor_image", "storage_backend"}
  const DeploymentTemplateParameters: set<string> :=
    {"name", "namespace", "version", "cpu", "memory", "hostname", "proxy_ssl", "proxy_port",
     "volume_def", "monitor_image"}

  /** `generate_manifests` as written: the deployment call passes two
      keywords the template does not declare, so the call raises TypeError
      every time. The files written before the call are returned with the
      error. */
  function GenerateAsWritten(inst: InstanceSpec, info: SetupVolume.VolumeInfo, baseDomain: string): (r: (map<string, Manifest>, Result<Generated>))
    ensures inst.name.Some? && inst.namespace.Some? && info.storageBackend == "pvc" ==> "pvc.yaml" in r.0
    ensures r.1.Success? <==> inst.name.Some? && inst.namespace.Some? && DeploymentCallKeywords <= DeploymentTemplateParameters
  {
    if inst.name.None? || inst.namespace.None? then (map[], Failure("KeyError: metadata"))
    else
      var name := inst.name.value;
      var ns := inst.namespace.value;
      var pvcFiles: map<string, Manifest> :=
        if info.storageBackend == "pvc" then map["pvc.yaml" := PvcManifest(PvcTemplate(name, ns))] else map[];
      if !(DeploymentCallKeywords <= DeploymentTemplateParameters) then
        (pvcFiles, Failure("TypeError: deployment_template() got an unexpected keyword argument"))
      else
        (pvcFiles, Generate(inst, info, baseDomain))
  }

  /** The call as written can never succeed: `admin_secret_name` and
      `storage_backend` are the unexpected keywords, and no deployment,
      service or RBAC file is ever written. */
  lemma DeploymentCallAlwaysRejected(inst: InstanceSpec, info: SetupVolume.VolumeInfo, baseDomain: string)
    ensures DeploymentCallKeywords - DeploymentTemplateParameters == {"admin_secret_name", "storage_backend"}
    ensures GenerateAsWritten(inst, info, baseDomain).1.Failure?
    ensures "deployment.yaml" !in GenerateAsWritten(inst, info, baseDomain).0
  {
    assert "admin_secret_name" in DeploymentCallKeywords - DeploymentTemplateParameters;
  }

  /** The claim the Deployment mounts is the PVC the step writes. */
  lemma PvcClaimMatches(inst: InstanceSpec, info: SetupVolume.VolumeInfo, baseDomain: string)
    requires inst.name.Some? && inst.namespace.Some? && info.storageBackend == "pvc"
    ensures var g := Generate(inst, info, baseDomain).value;
      g.files["deployment.yaml"].deployment.volumes[0].source.claimName == g.files["pvc.yaml"].pvc.name
  {
  }
}
