/** The scrubber that makes pipeline output acceptable to Flux: it strips
    server-managed metadata from every YAML document and drops the default
    `object.yaml`. The output directory is a map from file name to parsed
    document; None stands for a file that does not parse as YAML. */
module FluxCleanup {
  import opened Common

  /** The metadata keys the API server owns. */
  const ServerFields: set<string> := {"managedFields", "resourceVersion", "uid", "creationTimestamp", "generation"}
  const DefaultOutput: string := "object.yaml"

  /** Python's `field in x` and `x.pop(field)` on a `metadata` value that is
      not a dict: strings and lists only fail when the field occurs in them
      (then `pop` raises); anything else is not iterable and raises at once. */
  predicate ScrubFails(metadata: Json) {
    match metadata
    case JObj(_) => false
    case JStr(s) => exists f :: f in ServerFields && Contains(s, f)
    case JArr(xs) => exists f :: f in ServerFields && JStr(f) in xs
    case _ => true
  }

  /** `_clean_object`: mutates in place in the source; here the cleaned copy. */
  function CleanObject(obj: Json): (r: Result<Json>)
    ensures !obj.JObj? || "metadata" !in obj.fields ==> r == Success(obj)
    ensures obj.JObj? && "metadata" in obj.fields ==>
      (r.Failure? <==> ScrubFails(obj.fields["metadata"]))
    ensures r.Success? && obj.JObj? && "metadata" in obj.fields && obj.fields["metadata"].JObj? ==>
      var before := obj.fields["metadata"].fields;
      && r.value.JObj?
      && r.value.fields.Keys == obj.fields.Keys
      && (forall k :: k in obj.fields && k != "metadata" ==> r.value.fields[k] == obj.fields[k])
      && r.value.fields["metadata"].JObj?
      && r.value.fields["metadata"].fields.Keys == before.Keys - ServerFields
      && (forall k :: k in r.value.fields["metadata"].fields ==> r.value.fields["metadata"].fields[k] == before[k])
    ensures r.Success? && obj.JObj? && "metadata" in obj.fields && !obj.fields["metadata"].JObj? ==> r == Success(obj)
  {
    if !obj.JObj? || "metadata" !in obj.fields then Success(obj)
    else
      var metadata := obj.fields["metadata"];
      if metadata.JObj? then
        Success(JObj(obj.fields["metadata" := JObj(metadata.fields - ServerFields)]))
      else if ScrubFails(metadata) then Failure("metadata is not a dict")
      else Success(obj)
  }

  /** Cleaning twice is cleaning once. */
  lemma CleanObjectIdempotent(obj: Json)
    requires CleanObject(obj).Success?
    ensures CleanObject(CleanObject(obj).value) == CleanObject(obj)
  {
    var once := CleanObject(obj).value;
    if obj.JObj? && "metadata" in obj.fields && obj.fields["metadata"].JObj? {
      var m := once.fields["metadata"].fields;
      assert m - ServerFields == m;
      assert once.fields["metadata" := JObj(m)] == once.fields;
    }
  }

  /** Each item of a List, cleaned; the first failure aborts. */
  function CleanItems(items: seq<Json>): (r: Result<seq<Json>>)
    ensures r.Success? <==> forall i :: 0 <= i < |items| ==> CleanObject(items[i]).Success?
    ensures r.Success? ==> |r.value| == |items| && forall i :: 0 <= i < |items| ==> r.value[i] == CleanObject(items[i]).value
  {
    if |items| == 0 then Success([])
    else match CleanObject(items[0])
      case Failure(e) => Failure(e)
      case Success(head) =>
        match CleanItems(items[1..])
        case Failure(e) => Failure(e)
        case Success(tail) =>
          assert forall i :: 1 <= i < |items| ==> items[i] == items[1..][i - 1];
          Success([head] + tail)
  }

  /** Python truthiness of a parsed document. */
  predicate TruthyDoc(doc: Json) {
    match doc
    case JNull => false
    case JBool(b) => b
    case JInt(i) => i != 0
    case JStr(s) => s != ""
    case JArr(xs) => xs != []
    case JObj(fields) => fields != map[]
  }

  /** Values a Python `for` loop can walk over. */
  predicate Iterable(j: Json) {
    j.JArr? || j.JObj? || j.JStr?
  }

  predicate IsList(doc: Json) {
    doc.JObj? && "kind" in doc.fields && doc.fields["kind"] == JStr("List")
  }

  /** One document as rewritten: a List has its items cleaned (an `items`
      value that is a dict or a string iterates to strings, which are left
      alone; a scalar is not iterable), anything else is cleaned itself. */
  function CleanDocument(doc: Json): (r: Result<Json>)
    requires doc.JObj?
    ensures !IsList(doc) ==> r == CleanObject(doc)
    ensures IsList(doc) && "items" in doc.fields && doc.fields["items"].JArr? ==>
      (r.Success? <==> CleanItems(doc.fields["items"].items).Success?)
    ensures IsList(doc) && r.Success? ==> r.value.JObj? && r.value.fields.Keys == doc.fields.Keys
    ensures IsList(doc) && "items" in doc.fields && doc.fields["items"].JArr? && r.Success? ==>
      var items := doc.fields["items"].items;
      && r.value.fields["items"].JArr?
      && |r.value.fields["items"].items| == |items|
      && (forall i :: 0 <= i < |items| ==> r.value.fields["items"].items[i] == CleanObject(items[i]).value)
      && (forall k :: k in doc.fields && k != "items" ==> r.value.fields[k] == doc.fields[k])
    ensures IsList(doc) && ("items" !in doc.fields || doc.fields["items"].JObj? || doc.fields["items"].JStr?) ==>
      r == Success(doc)
    ensures IsList(doc) && "items" in doc.fields && !Iterable(doc.fields["items"]) ==> r.Failure?
  {
    if IsList(doc) then
      if "items" !in doc.fields then Success(doc)
      else match doc.fields["items"]
        case JArr(items) =>
          (match CleanItems(items)
           case Failure(e) => Failure(e)
           case Success(cleaned) => Success(JObj(doc.fields["items" := JArr(cleaned)])))
        case JObj(_) => Success(doc)
        case JStr(_) => Success(doc)
        case _ => Failure("items is not iterable")
    else CleanObject(doc)
  }

  predicate EndsWith(s: string, suffix: string) {
    |suffix| <= |s| && s[|s| - |suffix|..] == suffix
  }

  /** The files `output_dir.glob("*.yaml")` visits. */
  predicate IsYaml(file: string) {
    EndsWith(file, ".yaml")
  }

  /** What the pass does to one file: unparsable, falsy or non-dict
      documents are skipped; the rest are cleaned and written back. */
  function CleanFile(file: string, doc: Option<Json>): (r: Result<Option<Json>>)
    ensures !IsYaml(file) || doc.None? || !doc.value.JObj? || !TruthyDoc(doc.value) ==> r == Success(doc)
    ensures r.Success? && doc.Some? ==> r.value.Some?
    ensures IsYaml(file) && doc.Some? && doc.value.JObj? && TruthyDoc(doc.value) ==>
      && (r.Success? <==> CleanDocument(doc.value).Success?)
      && (r.Success? ==> r.value == Some(CleanDocument(doc.value).value))
  {
    if !IsYaml(file) || doc.None? || !TruthyDoc(doc.value) || !doc.value.JObj? then Success(doc)
    else match CleanDocument(doc.value)
      case Failure(e) => Failure(e)
      case Success(d) => Success(Some(d))
  }

  /** `cleanup_for_flux`: every file cleaned, then `object.yaml` removed.
      Any exception aborts the whole pass. */
  function Cleanup(files: map<string, Option<Json>>): (r: Result<map<string, Option<Json>>>)
    ensures r.Success? <==> forall f :: f in files ==> CleanFile(f, files[f]).Success?
    ensures r.Success? ==> r.value.Keys == files.Keys - {DefaultOutput}
    ensures r.Success? ==> forall f :: f in r.value ==> r.value[f] == CleanFile(f, files[f]).value
  {
    if forall f :: f in files ==> CleanFile(f, files[f]).Success? then
      Success(map f | f in files && f != DefaultOutput :: CleanFile(f, files[f]).value)
    else Failure("cleanup failed")
  }

  /** Running the scrubber again changes nothing. */
  lemma CleanupIdempotent(files: map<string, Option<Json>>)
    requires Cleanup(files).Success?
    ensures Cleanup(Cleanup(files).value) == Cleanup(files)
  {
    var once := Cleanup(files).value;
    forall f | f in once
      ensures CleanFile(f, once[f]) == Success(once[f])
    {
      CleanFileIdempotent(f, files[f]);
    }
    assert once.Keys - {DefaultOutput} == once.Keys;
    assert Cleanup(once).value == once;
  }

  lemma CleanFileIdempotent(file: string, doc: Option<Json>)
    requires CleanFile(file, doc).Success?
    ensures CleanFile(file, CleanFile(file, doc).value) == CleanFile(file, doc)
  {
    if IsYaml(file) && doc.Some? && TruthyDoc(doc.value) && doc.value.JObj? {
      CleanDocumentIdempotent(doc.value);
      var d := CleanFile(file, doc).value.value;
      assert TruthyDoc(d) ==> CleanFile(file, Some(d)) == Success(Some(d));
      assert d.JObj? && d.fields.Keys == doc.value.fields.Keys;
    }
  }

  lemma CleanDocumentIdempotent(doc: Json)
    requires doc.JObj? && CleanDocument(doc).Success?
    ensures CleanDocument(doc).value.JObj?
    ensures CleanDocument(doc).value.fields.Keys == doc.fields.Keys
    ensures CleanDocument(CleanDocument(doc).value) == CleanDocument(doc)
  {
    if IsList(doc) {
      if "items" in doc.fields && doc.fields["items"].JArr? {
        CleanItemsIdempotent(doc.fields["items"].items);
        var cleaned := CleanItems(doc.fields["items"].items).value;
        var once := CleanDocument(doc).value;
        assert once.fields == doc.fields["items" := JArr(cleaned)];
        assert IsList(once) && once.fields["items"] == JArr(cleaned);
        assert once.fields["items" := JArr(cleaned)] == once.fields;
      }
    } else {
      CleanObjectIdempotent(doc);
    }
  }

  lemma CleanItemsIdempotent(items: seq<Json>)
    requires CleanItems(items).Success?
    ensures CleanItems(CleanItems(items).value) == CleanItems(items)
  {
    var once := CleanItems(items).value;
    forall i | 0 <= i < |once|
      ensures CleanObject(once[i]) == Success(once[i])
    {
      CleanObjectIdempotent(items[i]);
    }
    var twice := CleanItems(once);
    assert twice.value == once;
  }
}
