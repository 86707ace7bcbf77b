/** The FoundryInstance license check (`check_license`). The license lookup
    and the reconciliation patch are inputs: what the API server answered. */
module CheckLicense {
  import opened Common

  const DefaultBaseDomain: string := "k8s.orb.local"
  const RefRequired: string := "ERROR: licenseRef.name is required"
  const ReconcileLabel: string := "kratix.io/manual-reconciliation"

  /** The fields of a FoundryLicense the check reads: `spec.activeInstanceName`
      and `spec.gateway.baseDomain`, None when absent. */
  datatype License = License(activeInstanceName: Option<string>, baseDomain: Option<string>)

  /** The answer to the license GET: the object, or an API error status. */
  datatype Lookup = Found(license: License) | LookupFailed(status: int)

  /** The answer to the reconciliation patch. */
  datatype PatchAnswer = Patched | PatchFailed(status: int)

  /** The returned pair, the status written back, and whether the
      reconciliation label patch was sent. */
  datatype Checked = Checked(isActive: bool, baseDomain: string, status: map<string, Json>, touched: bool)

  /** The license's desired holder is this instance; a missing field reads as "". */
  predicate Names(license: License, instanceName: string) {
    || license.activeInstanceName == Some(instanceName)
    || (license.activeInstanceName.None? && instanceName == "")
  }

  function Check(instanceName: string, licenseRef: Option<string>, lookup: Lookup, patch: PatchAnswer): (r: Result<Checked>)
    ensures r.Failure? <==> !Provided(licenseRef)
    ensures r.Failure? ==> r.error == RefRequired
    ensures r.Success? ==>
      && (r.value.isActive <==> lookup.Found? && Names(lookup.license, instanceName))
      && r.value.baseDomain == (if lookup.Found? then lookup.license.baseDomain.GetOr(DefaultBaseDomain) else DefaultBaseDomain)
      && r.value.status == map["isActive" := JBool(r.value.isActive)]
      && (r.value.touched <==> lookup.Found?)
  {
    if !Provided(licenseRef) then Failure(RefRequired)
    else match lookup
      case LookupFailed(_) =>
        Success(Checked(false, DefaultBaseDomain, map["isActive" := JBool(false)], false))
      case Found(license) =>
        // A failed patch is caught after both values are settled, so it changes neither.
        var isActive := license.activeInstanceName.GetOr("") == instanceName;
        Success(Checked(isActive, license.baseDomain.GetOr(DefaultBaseDomain), map["isActive" := JBool(isActive)], true))
  }

  /** For every lookup: with a usable reference the check succeeds whatever
      the patch answered, the answer changes nothing in the result, the
      instance is active exactly when the found license's holder, read with
      "" for a missing field, is its name, and the patch is sent exactly when
      the license was found. */
  lemma CheckFollowsLookup(instanceName: string, licenseRef: Option<string>, lookup: Lookup,
                           patch: PatchAnswer, other: PatchAnswer)
    requires Provided(licenseRef)
    ensures Check(instanceName, licenseRef, lookup, patch).Success?
    ensures Check(instanceName, licenseRef, lookup, patch) == Check(instanceName, licenseRef, lookup, other)
    ensures Check(instanceName, licenseRef, lookup, patch).value.isActive <==>
      lookup.Found? && lookup.license.activeInstanceName.GetOr("") == instanceName
    ensures Check(instanceName, licenseRef, lookup, patch).value.touched <==> lookup.Found?
  {
  }

  /** Activity follows the license's desired holder (`spec`), not its
      confirmed one: a license naming the instance makes it active even when
      the reconciliation patch fails, and a lookup failure is never fatal. */
  lemma ActivityFollowsSpec(instanceName: string, licenseRef: string, domain: Option<string>, patch: PatchAnswer, status: int)
    requires Provided(Some(licenseRef))
    ensures Check(instanceName, Some(licenseRef), Found(License(Some(instanceName), domain)), patch).value.isActive
    ensures var r := Check(instanceName, Some(licenseRef), LookupFailed(status), patch);
      r.Success? && !r.value.isActive && r.value.baseDomain == DefaultBaseDomain
  {
  }

  /** An instance whose name is empty is active for a license that names no
      holder, because the missing field reads as "". */
  lemma EmptyNameMatchesMissingHolder(licenseRef: string, patch: PatchAnswer)
    requires Provided(Some(licenseRef))
    ensures Check("", Some(licenseRef), Found(License(None, None)), patch).value.isActive
  {
  }
}
