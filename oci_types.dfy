/**
 * Values shared by the Oracle Cloud storage backend: the persisted storage
 * fields, the exceptions the backend raises or lets through, and the JSON
 * values it reads and writes.
 */
module OciTypes {
  import opened Wrappers

  /** A JSON document as json.loads produces it; numbers keep their literal text. */
  datatype Json =
    | JNull
    | JBool(b: bool)
    | JNumber(literal: string)
    | JString(s: string)
    | JArray(items: seq<Json>)
    | JObject(fields: map<string, Json>)

  /** The exceptions that leave (or are logged by) the backend's operations. */
  datatype Error =
    /** An exception raised by code outside this model: the cloud SDK, HTTP,
        decoding, the serializer or the database. */
    | Raised(origin: string)
    /** The ValueError of get_data when the document is not a JSON object. */
    | NotADictionary(key: string)
    /** The RuntimeError of validate_connection, naming the probed endpoint. */
    | InvalidConfig(endpoint: string)
    /** The AttributeError of reading an attribute the storage does not have. */
    | MissingAttribute(name: string)

  /**
   * The fields of the storage mixin. Every text field is nullable; the
   * boolean selects BLOB-reference mode.
   */
  datatype StorageConfig = StorageConfig(
    tenancy: Option<string>,
    bucketName: Option<string>,
    bucketPrefix: Option<string>,
    region: Option<string>,
    ocid: Option<string>,
    fingerPrint: Option<string>,
    privateKey: Option<string>,
    passPhrase: Option<string>,
    regexFilter: Option<string>,
    preAuthenticatedUrl: Option<string>,
    useBlobUrls: bool)

  /** Python's `str(x)` (and f-string interpolation) of a nullable text field. */
  function Str(o: Option<string>): string
  {
    match o
    case None => "None"
    case Some(s) => s
  }

  /** Python truthiness of a nullable text field: set and non-empty. */
  predicate Truthy(o: Option<string>)
  {
    o.Some? && o.value != ""
  }
}
