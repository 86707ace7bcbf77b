/** The FoundryPassword pipeline: the ExternalSecret it generates and the
    status it writes back. `now` is the ISO timestamp of the run. */
module Password {
  import opened Common

  const PasswordLabel: string := "foundry.platform/password"
  const GeneratorName: string := "foundry-password"
  const DefaultType: string := "default"

  /** The fields of the FoundryPassword resource the pipeline reads.
      `passwordType` is None when `spec.type` is absent; `createdAt` is the
      existing `status.createdAt`. */
  datatype PasswordResource = PasswordResource(
    name: Option<string>, namespace: Option<string>,
    passwordType: Option<string>, instanceName: Option<string>,
    createdAt: Option<string>)

  /** What one run produces: the ExternalSecret written to
      `external-secret.yaml`, the secret name and the status dict. */
  datatype PasswordOutput = PasswordOutput(externalSecret: Json, secretName: string, passwordType: string, status: map<string, Json>)

  function Field(j: Json, key: string): Json {
    if j.JObj? && key in j.fields then j.fields[key] else JNull
  }

  function ExternalSecretTemplate(passwordName: string, namespace: string, secretName: string): (es: Json)
    ensures Field(es, "kind") == JStr("ExternalSecret")
    ensures Field(Field(es, "metadata"), "name") == JStr(secretName)
    ensures Field(Field(es, "metadata"), "namespace") == JStr(namespace)
    ensures Field(Field(Field(es, "metadata"), "labels"), PasswordLabel) == JStr(passwordName)
    ensures Field(Field(es, "spec"), "refreshInterval") == JStr("0")
    ensures Field(Field(Field(es, "spec"), "target"), "name") == JStr(secretName)
  {
    var generator := JObj(map[
      "apiVersion" := JStr("generators.external-secrets.io/v1alpha1"),
      "kind" := JStr("ClusterGenerator"),
      "name" := JStr(GeneratorName)]);
    var target := JObj(map[
      "name" := JStr(secretName),
      "template" := JObj(map["data" := JObj(map["adminPassword" := JStr("{{ .password }}")])])]);
    JObj(map[
      "apiVersion" := JStr("external-secrets.io/v1"),
      "kind" := JStr("ExternalSecret"),
      "metadata" := JObj(map[
        "name" := JStr(secretName),
        "namespace" := JStr(namespace),
        "labels" := JObj(map[PasswordLabel := JStr(passwordName), "managed-by" := JStr("kratix")])]),
      "spec" := JObj(map[
        "refreshInterval" := JStr("0"),
        "target" := target,
        "dataFrom" := JArr([JObj(map["sourceRef" := JObj(map["generatorRef" := generator])])])])])
  }

  /** The status dict: a first run stamps `createdAt` and raises the
      notification flag; later runs keep the stamp and lower the flag. */
  function Status(secretName: string, createdAt: Option<string>, now: string): (status: map<string, Json>)
    ensures status.Keys == {"phase", "secretName", "lastRefreshed", "createdAt", "passwordPendingNotification"}
    ensures status["phase"] == JStr("Ready")
    ensures status["secretName"] == JStr(secretName)
    ensures status["lastRefreshed"] == JStr(now)
    ensures !Truthy(createdAt) ==> status["createdAt"] == JStr(now) && status["passwordPendingNotification"] == JBool(true)
    ensures Truthy(createdAt) ==> status["createdAt"] == JStr(createdAt.value) && status["passwordPendingNotification"] == JBool(false)
  {
    var base := map["phase" := JStr("Ready"), "secretName" := JStr(secretName), "lastRefreshed" := JStr(now)];
    if !Truthy(createdAt) then
      base["createdAt" := JStr(now)]["passwordPendingNotification" := JBool(true)]
    else
      base["createdAt" := JStr(createdAt.value)]["passwordPendingNotification" := JBool(false)]
  }

  /** One run of the pipeline; a resource without a name or namespace is fatal. */
  function Configure(res: PasswordResource, now: string): (r: Result<PasswordOutput>)
    ensures r.Success? <==> res.name.Some? && res.namespace.Some?
    ensures r.Success? ==>
      && r.value.secretName == res.name.value
      && r.value.passwordType == res.passwordType.GetOr(DefaultType)
      && r.value.externalSecret == ExternalSecretTemplate(res.name.value, res.namespace.value, res.name.value)
      && r.value.status == Status(res.name.value, res.createdAt, now)
  {
    if res.name.None? || res.namespace.None? then Failure("KeyError: metadata")
    else
      var secretName := res.name.value;
      Success(PasswordOutput(
        ExternalSecretTemplate(res.name.value, res.namespace.value, secretName),
        secretName, res.passwordType.GetOr(DefaultType),
        Status(secretName, res.createdAt, now)))
  }

  /** The notification fires once: feeding a run's status back into the
      next run keeps the original `createdAt` and lowers the flag. */
  lemma NotifiesOnce(res: PasswordResource, first: string, later: string)
    requires res.name.Some? && res.namespace.Some? && !Truthy(res.createdAt) && first != ""
    ensures var r1 := Configure(res, first).value;
      var r2 := Configure(res.(createdAt := Some(first)), later).value;
      && r1.status["passwordPendingNotification"] == JBool(true)
      && r2.status["passwordPendingNotification"] == JBool(false)
      && r2.status["createdAt"] == r1.status["createdAt"]
  {
  }
}
