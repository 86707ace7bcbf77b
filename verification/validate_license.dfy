/** The FoundryLicense validation step (`validate_license`). A `sys.exit(1)`
    is a Failure carrying the message printed to stderr. */
module ValidateLicense {
  import opened Common

  const NameRequired: string := "ERROR: licenseSecretRef.name is required"
  const KeyRequired: string := "ERROR: licenseSecretRef.key is required"

  /** The secret reference of a license; None marks an absent key. */
  datatype SecretRef = SecretRef(name: Option<string>, key: Option<string>)

  function Validate(ref: SecretRef): (r: Result<(string, string)>)
    ensures r.Success? <==> Provided(ref.name) && Provided(ref.key)
    ensures r.Success? ==> r.value == (ref.name.value, ref.key.value)
    ensures !Provided(ref.name) ==> r == Failure(NameRequired)
    ensures Provided(ref.name) && !Provided(ref.key) ==> r == Failure(KeyRequired)
  {
    if !Provided(ref.name) then Failure(NameRequired)
    else if !Provided(ref.key) then Failure(KeyRequired)
    else Success((ref.name.value, ref.key.value))
  }

  /** A field the pipeline cannot use: absent, empty, or the string "null". */
  predicate Unusable(o: Option<string>) {
    o.None? || o.value == "" || o.value == "null"
  }

  /** For every reference: it validates exactly when neither field is
      unusable, the name's error wins over the key's, and what validates is
      handed back unchanged, so validating it again gives the same pair. */
  lemma ValidateAcceptsExactlyUsable(ref: SecretRef)
    ensures Validate(ref).Success? <==> !Unusable(ref.name) && !Unusable(ref.key)
    ensures Unusable(ref.name) ==> Validate(ref).error == NameRequired
    ensures !Unusable(ref.name) && Unusable(ref.key) ==> Validate(ref).error == KeyRequired
    ensures Validate(ref).Success? ==>
      var pair := Validate(ref).value;
      SecretRef(Some(pair.0), Some(pair.1)) == ref && Validate(SecretRef(Some(pair.0), Some(pair.1))) == Validate(ref)
  {
  }

  /** The three ways a field can be unusable are rejected alike, and the
      name is reported first when both fields are unusable. */
  lemma RejectsMissingEmptyAndNull(key: Option<string>)
    ensures Validate(SecretRef(None, key)) == Failure(NameRequired)
    ensures Validate(SecretRef(Some(""), key)) == Failure(NameRequired)
    ensures Validate(SecretRef(Some("null"), key)) == Failure(NameRequired)
    ensures Validate(SecretRef(Some("license"), Some("null"))) == Failure(KeyRequired)
  {
  }
}
