/** The Kubernetes manifests the pipelines emit, as plain records, and the
    template functions that build them. Only the fields other parts of the
    system depend on (names, ports, references, volumes) are kept. */
module ManifestTemplates {
  import opened Common

  const AppLabel: string := "foundry-vtt"
  const FoundryPort: int := 30000
  const ServicePortNumber: int := 80
  const DnsRecordTtl: int := 300
  const DefaultStorage: string := "10Gi"
  const CredentialsSecret: string := "foundry-credentials"

  function InstanceLabels(name: string): map<string, string> {
    map["app" := AppLabel, "instance" := name]
  }

  // ---- HTTPRoute -----------------------------------------------------------

  datatype ParentRef = ParentRef(name: string, namespace: string)

  /** `namespace` is the backend namespace the route generator asks for
      (`None`: same namespace as the route). */
  datatype BackendRef = BackendRef(name: string, namespace: Option<string>, port: int)

  datatype HttpRoute = HttpRoute(
    name: string,
    namespace: string,
    labels: map<string, string>,
    hostnames: seq<string>,
    parentRefs: seq<ParentRef>,
    backendRefs: seq<BackendRef>)

  function HttpRouteTemplate(name: string, namespace: string, hostname: string,
                             gatewayName: string, gatewayNs: string,
                             backendService: string, backendNs: Option<string>): (r: HttpRoute)
    ensures r.name == "foundry-id-" + name && r.namespace == namespace
    ensures r.labels == InstanceLabels(name)
    ensures r.hostnames == [hostname]
    ensures r.parentRefs == [ParentRef(gatewayName, gatewayNs)]
    ensures |r.backendRefs| == 1 && r.backendRefs[0].name == backendService
    ensures r.backendRefs[0].namespace == backendNs && r.backendRefs[0].port == ServicePortNumber
  {
    HttpRoute("foundry-id-" + name, namespace, InstanceLabels(name), [hostname],
              [ParentRef(gatewayName, gatewayNs)], [BackendRef(backendService, backendNs, ServicePortNumber)])
  }

  // ---- DNSEndpoint ---------------------------------------------------------

  datatype Endpoint = Endpoint(dnsName: string, recordTtl: int, recordType: string, targets: seq<string>)

  datatype DnsEndpoint = DnsEndpoint(name: string, namespace: string, endpoints: seq<Endpoint>)

  function DnsEndpointTemplate(name: string, namespace: string, hostname: string, dnsTarget: string): (r: DnsEndpoint)
    ensures r.name == "foundry-id-" + name && r.namespace == namespace
    ensures |r.endpoints| == 1
    ensures r.endpoints[0] == Endpoint(hostname, 300, "A", [dnsTarget])
  {
    DnsEndpoint("foundry-id-" + name, namespace, [Endpoint(hostname, DnsRecordTtl, "A", [dnsTarget])])
  }

  // ---- Deployment ----------------------------------------------------------

  datatype EnvVar =
    | EnvValue(name: string, value: string)
    | EnvSecret(name: string, secretName: string, key: string)
    | EnvField(name: string, fieldPath: string)

  datatype VolumeMount = VolumeMount(name: string, mountPath: string, readOnly: bool)

  datatype Requests = Requests(cpu: string, memory: string)

  datatype Container = Container(
    name: string,
    image: string,
    command: seq<string>,
    ports: seq<int>,
    requests: Option<Requests>,
    env: seq<EnvVar>,
    volumeMounts: seq<VolumeMount>)

  /** The `volume_def` dict merged into the `data` volume, or a secret volume. */
  datatype VolumeSource =
    | NfsSource(server: Option<string>, path: string)
    | ClaimSource(claimName: string)
    | SecretSource(secretName: string)

  datatype Volume = Volume(name: string, source: VolumeSource)

  datatype Deployment = Deployment(
    name: string,
    namespace: string,
    labels: map<string, string>,
    replicas: int,
    strategy: string,
    selector: map<string, string>,
    podLabels: map<string, string>,
    serviceAccountName: string,
    initContainers: seq<Container>,
    containers: seq<Container>,
    volumes: seq<Volume>)

  function MonitorAccount(name: string): string {
    "foundry-" + name + "-monitor"
  }

  function BoolText(b: bool): string {
    if b then "true" else "false"
  }

  function FoundryEnv(hostname: string, proxySsl: bool, proxyPort: int): seq<EnvVar> {
    [ EnvValue("UV_THREADPOOL_SIZE", "6"),
      EnvValue("CONTAINER_CACHE", "/data/container_cache"),
      EnvValue("TIMEZONE", "UTC"),
      EnvValue("FOUNDRY_HOSTNAME", hostname),
      EnvValue("FOUNDRY_LOCAL_HOSTNAME", hostname),
      EnvValue("FOUNDRY_PROXY_SSL", BoolText(proxySsl)),
      EnvValue("FOUNDRY_PROXY_PORT", IntToString(proxyPort)),
      EnvSecret("FOUNDRY_USERNAME", CredentialsSecret, "username"),
      EnvSecret("FOUNDRY_PASSWORD", CredentialsSecret, "password"),
      EnvSecret("FOUNDRY_ADMIN_KEY", CredentialsSecret, "adminPassword"),
      EnvSecret("FOUNDRY_LICENSE_KEY", "foundry-license", "license-key") ]
  }

  function FoundryContainer(version: string, cpu: string, memory: string, hostname: string,
                            proxySsl: bool, proxyPort: int): Container {
    Container("foundry-vtt", "felddy/foundryvtt:" + version, [], [FoundryPort],
              Some(Requests(cpu, memory)), FoundryEnv(hostname, proxySsl, proxyPort),
              [VolumeMount("data", "/data", false)])
  }

  function MonitorContainer(name: string, image: string): Container {
    Container("monitor", image, ["python3", "-m", "foundry_lib.sidecar_monitor"], [], None,
              [ EnvValue("INSTANCE_NAME", name),
                EnvField("POD_NAMESPACE", "metadata.namespace"),
                EnvValue("PYTHONPATH", "/app"),
                EnvValue("PYTHONUNBUFFERED", "1") ],
              [VolumeMount("credentials", "/etc/foundry/credentials", true)])
  }

  const PermissionsInit: Container :=
    Container("volume-permissions", "busybox:1.36", ["sh", "-c", "chown -R 1000:1000 /data"], [], None, [],
              [VolumeMount("data", "/data", false)])

  /** `deployment_template`; `monitorImage` is appended as a sidecar when truthy. */
  function DeploymentTemplate(name: string, namespace: string, version: string, cpu: string, memory: string,
                              hostname: string, proxySsl: bool, proxyPort: int, volumeDef: VolumeSource,
                              monitorImage: Option<string>): (r: Deployment)
    ensures r.name == "foundry-" + name && r.namespace == namespace
    ensures r.replicas == 1 && r.strategy == "Recreate"
    ensures r.selector == r.podLabels == r.labels == InstanceLabels(name)
    ensures r.serviceAccountName == MonitorAccount(name)
    ensures |r.initContainers| == 1
    ensures |r.containers| == (if Truthy(monitorImage) then 2 else 1)
    ensures |r.volumes| == |r.containers|
    ensures r.containers[0].name == "foundry-vtt" && r.containers[0].ports == [FoundryPort]
    ensures r.containers[0].image == "felddy/foundryvtt:" + version
    ensures r.volumes[0] == Volume("data", volumeDef)
    ensures Truthy(monitorImage) ==>
      && r.containers[1].name == "monitor" && r.containers[1].image == monitorImage.value
      && r.volumes[1] == Volume("credentials", SecretSource(CredentialsSecret))
  {
    var main := [FoundryContainer(version, cpu, memory, hostname, proxySsl, proxyPort)];
    var data := [Volume("data", volumeDef)];
    var containers := if Truthy(monitorImage) then main + [MonitorContainer(name, monitorImage.value)] else main;
    var volumes := if Truthy(monitorImage) then data + [Volume("credentials", SecretSource(CredentialsSecret))] else data;
    Deployment("foundry-" + name, namespace, InstanceLabels(name), 1, "Recreate",
               InstanceLabels(name), InstanceLabels(name), MonitorAccount(name),
               [PermissionsInit], containers, volumes)
  }

  // ---- RBAC ----------------------------------------------------------------

  datatype PolicyRule = PolicyRule(apiGroups: seq<string>, resources: seq<string>, verbs: seq<string>)
  datatype Subject = Subject(kind: string, name: string, namespace: string)
  datatype RoleRef = RoleRef(kind: string, name: string, apiGroup: string)

  datatype RbacObject =
    | ServiceAccount(name: string, namespace: string)
    | Role(name: string, namespace: string, rules: seq<PolicyRule>)
    | RoleBinding(name: string, namespace: string, subjects: seq<Subject>, roleRef: RoleRef)
  {
    function Kind(): string {
      match this
      case ServiceAccount(_, _) => "ServiceAccount"
      case Role(_, _, _) => "Role"
      case RoleBinding(_, _, _, _) => "RoleBinding"
    }
  }

  function RbacTemplates(name: string, namespace: string): (r: seq<RbacObject>)
    ensures |r| == 3
    ensures r[0].ServiceAccount? && r[1].Role? && r[2].RoleBinding?
    ensures forall i :: 0 <= i < 3 ==> r[i].name == MonitorAccount(name) && r[i].namespace == namespace
    ensures r[2].subjects == [Subject("ServiceAccount", r[0].name, r[0].namespace)]
    ensures r[2].roleRef == RoleRef("Role", r[1].name, "rbac.authorization.k8s.io")
  {
    var account := MonitorAccount(name);
    [ ServiceAccount(account, namespace),
      Role(account, namespace,
           [PolicyRule(["foundry.platform"], ["foundryinstances/status"], ["get", "patch", "update"])]),
      RoleBinding(account, namespace, [Subject("ServiceAccount", account, namespace)],
                  RoleRef("Role", account, "rbac.authorization.k8s.io")) ]
  }

  // ---- Service and PVC -----------------------------------------------------

  datatype ServicePort = ServicePort(protocol: string, port: int, targetPort: int)

  datatype Service = Service(name: string, namespace: string, labels: map<string, string>,
                             selector: map<string, string>, ports: seq<ServicePort>, serviceType: string)

  function ServiceTemplate(name: string, namespace: string): (r: Service)
    ensures r.name == "foundry-" + name && r.namespace == namespace
    ensures r.selector == InstanceLabels(name)
    ensures r.ports == [ServicePort("TCP", 80, 30000)] && r.serviceType == "ClusterIP"
  {
    Service("foundry-" + name, namespace, InstanceLabels(name), InstanceLabels(name),
            [ServicePort("TCP", ServicePortNumber, FoundryPort)], "ClusterIP")
  }

  datatype Pvc = Pvc(name: string, namespace: string, labels: map<string, string>,
                     accessModes: seq<string>, storage: string)

  function PvcName(name: string): string {
    "foundry-" + name + "-data"
  }

  function PvcTemplate(name: string, namespace: string, storage: string := DefaultStorage): (r: Pvc)
    ensures r.name == "foundry-" + name + "-data" && r.namespace == namespace
    ensures r.accessModes == ["ReadWriteOnce"] && r.storage == storage
  {
    Pvc(PvcName(name), namespace, InstanceLabels(name), ["ReadWriteOnce"], storage)
  }

  // ---- Cross-template consistency -------------------------------------------

  /** An active route (backend `foundry-<name>`, port 80) lands on the
      instance's Service, whose target port is the Foundry container port and
      whose selector picks exactly the Deployment's pods. */
  lemma ActiveRouteReachesFoundry(name: string, namespace: string, hostname: string,
                                  gatewayName: string, gatewayNs: string,
                                  version: string, cpu: string, memory: string, proxySsl: bool,
                                  proxyPort: int, volumeDef: VolumeSource, monitorImage: Option<string>)
    ensures var route := HttpRouteTemplate(name, namespace, hostname, gatewayName, gatewayNs, "foundry-" + name, None);
            var svc := ServiceTemplate(name, namespace);
            var dep := DeploymentTemplate(name, namespace, version, cpu, memory, hostname, proxySsl,
                                          proxyPort, volumeDef, monitorImage);
      && route.backendRefs[0].name == svc.name == dep.name
      && route.backendRefs[0].port == svc.ports[0].port
      && svc.ports[0].targetPort in dep.containers[0].ports
      && svc.selector == dep.podLabels
  {
  }

  /** The monitor's RBAC identity is the account the Deployment runs as, and
      the binding grants exactly that account the Role. */
  lemma MonitorIdentityConsistent(name: string, namespace: string, version: string, cpu: string,
                                  memory: string, hostname: string, proxySsl: bool, proxyPort: int,
                                  volumeDef: VolumeSource, monitorImage: Option<string>)
    ensures var rbac := RbacTemplates(name, namespace);
            var dep := DeploymentTemplate(name, namespace, version, cpu, memory, hostname, proxySsl,
                                          proxyPort, volumeDef, monitorImage);
      && [rbac[0].Kind(), rbac[1].Kind(), rbac[2].Kind()] == ["ServiceAccount", "Role", "RoleBinding"]
      && rbac[0].name == dep.serviceAccountName
      && rbac[2].subjects[0].name == dep.serviceAccountName
      && rbac[2].roleRef.name == rbac[1].name
  {
  }

  /** A claim volume pointing at `foundry-<name>-data` mounts the PVC the
      PVC template creates for that instance. */
  lemma ClaimMatchesPvc(name: string, namespace: string)
    ensures ClaimSource(PvcName(name)).claimName == PvcTemplate(name, namespace).name
  {
  }
}
