# Oracle Cloud Object Storage backend of Label Studio, modelled in Dafny

Label Studio imports tasks from, and exports annotations to, cloud buckets.
This project models the Oracle Cloud (OCI) backend, which has three parts.

- **The shared storage mixin.**
  - The SDK configuration map.
  - The re-armoring of a private key that was pasted as one flattened line.
  - The decision made by the connection check.
- **The import storage.**
  - `iterkeys` enumerates a bucket's object names. It reads the listing page by page, following the listing cursor. It skips the "directory marker" object named after the bucket prefix. It skips names the regex filter does not match at the start.
  - `get_data` turns one key into a task payload. In BLOB mode the payload is a URL. Otherwise it is the JSON object fetched from that URL.
- **The export storage.**
  - `save_annotation` first records an export link, then tries to write the serialized annotation under the bucket prefix. It is best effort: anything that goes wrong after the link exists is logged and swallowed. As written, the write reads attributes the storage does not declare, so it raises before anything is written (see Findings).
  - A post-save hook fans each saved annotation out to every export storage of its project.

Modules:

- `Wrappers`: `Option` and `Result`.
- `OciTypes`: JSON values, errors, and the storage's fields. A nullable text field is an `Option<string>`. `Str` renders it the way Python's `str` does, and `Truthy` gives its truthiness.
- `Text`: the Python string operations the backend relies on.
  - `str.split()` (the whitespace is the full `str.isspace` set).
  - `sep.join`.
  - Splitting text into lines.
  - `rstrip`.
- `StorageMixin`:
  - `get_config`.
  - `get_private_key`, an imperative method proved equal to the `ArmoredKey` specification function, plus lemmas about that function's lines, newline count and tokens.
  - `validate_connection`.
  - The set of attributes a storage declares, and attribute reads that raise `AttributeError` for any other name.
- `ImportStorage`:
  - `iterkeys`, an imperative method with its listing loop and its per-page loop. It is proved against `YieldedKeys`, the concatenation of each page's survivors, and against `CallsFor`, the calls that the cursor chain dictates.
  - `get_data`.
- `ExportStorage`:
  - The link table (`LinkTable`) and the bucket (`ObjectStore`) are classes updated in place.
  - `save_annotation` is a method proved equal to the `SaveSpec` function.
  - The fan-out is a method proved equal to `ExportAllSpec`. Each save in it takes its own environment: the outcomes of its collaborators and its attribute reads. `AsWrittenEnvs` gives the reads the code makes as written. `IntendedEnvs` gives the reads it evidently means.
  - Lemmas state the best-effort guarantees.

How the outside world is modelled:

- Calls to the cloud SDK, to HTTP and to the JSON parser are outcomes passed in as parameters.
  - `session` is the result of building the client and asking for the namespace.
  - `responses` is the sequence the listing service answers.
  - `probe` is the status of the signed GET, or the exception it raised.
  - `load` is GET, then decode, then parse.
  - `put` is the exception `put_object` raised, if any.
- The regex engine is an abstract `Matcher`. It answers whether a pattern matches a name at position 0.

## Model

| member | source | states |
|---|---|---|
| StorageMixin.GetConfig | label_studio/io_storages/oci/models.py:46-55 | The configuration has exactly the keys user, fingerprint, tenancy, region, pass_phrase and key_file; key_file is always the text "None" |
| StorageMixin.GetConfigDeterminedByCredentials | label_studio/io_storages/oci/models.py:46-55 | Two storages get equal configurations iff their OCID, fingerprint, tenancy, region and pass phrase render to the same text; no other field matters |
| StorageMixin.GetConfigUnsetReadsAsNone | label_studio/io_storages/oci/models.py:48 | An unset OCID gives the user "None", the same configuration as an OCID holding the text "None" |
| StorageMixin.GetPrivateKey | label_studio/io_storages/oci/models.py:56-70 | The loop's result is the armored key: the header line, then each body token after a newline, then a newline and the footer line |
| StorageMixin.KeyLinesNewlineFree | label_studio/io_storages/oci/models.py:57-61 | No header, body or footer line contains a newline, because tokens carry no whitespace |
| StorageMixin.ArmoredKeyLines | label_studio/io_storages/oci/models.py:56-70 | Split at newlines, the armored key is exactly: the first 4 tokens joined by spaces, each token of `[4:-4]` on its own line, then the last 4 tokens joined by spaces |
| StorageMixin.ArmoredKeyNewlines | label_studio/io_storages/oci/models.py:64-67 | A key of n tokens re-armors with exactly max(0, n-8)+1 newlines |
| StorageMixin.ArmoredKeyTokens | label_studio/io_storages/oci/models.py:57-68 | Re-splitting the armored key gives header + body + footer tokens, in order |
| StorageMixin.ArmoringPreservesTokens | label_studio/io_storages/oci/models.py:57-68 | The armored key has the same tokens as the input iff the input has 0 or at least 8 tokens; with 1 to 7 tokens the header and footer overlap and tokens repeat |
| StorageMixin.ConsoleEndpoint | label_studio/io_storages/oci/models.py:93 | The probed URL starts with the console host of the storage's region and ends with the bucket name |
| StorageMixin.TextFields | label_studio/io_storages/oci/models.py:32-43 | Every text field is a declared attribute; `bucket_prefix` and `bucket_name` hold the storage's prefix and bucket name |
| StorageMixin.ReadTextAttribute | label_studio/io_storages/oci/models.py:31-44 | Reading a name raises the AttributeError naming it exactly when the storage does not declare it; otherwise it gives that field's value |
| StorageMixin.ReadClient | label_studio/io_storages/oci/models.py:84-88 | Reaching the client through a name raises the AttributeError naming it exactly when the storage does not declare that name |
| StorageMixin.ValidateConnection | label_studio/io_storages/oci/models.py:92-99 | Success iff the namespace lookup succeeds and the probe of the console endpoint answers status 200. A namespace error propagates unchanged. Any other failure is the invalid-configuration error naming the endpoint |
| StorageMixin.ProbeFailuresIndistinguishable | label_studio/io_storages/oci/models.py:94-99 | A non-200 status and a raised probe give the same outcome |
| ImportStorage.ListingPrefix | label_studio/io_storages/oci/models.py:107 | The prefix is empty exactly when the bucket prefix is unset or empty; otherwise it is the bucket prefix itself |
| ImportStorage.DirectoryMarker | label_studio/io_storages/oci/models.py:107-112 | The skipped marker ends in exactly one slash. Without that slash it is a prefix of the bucket prefix, and the rest of the bucket prefix is all slashes |
| ImportStorage.FilterOf | label_studio/io_storages/oci/models.py:107-108 | The filter uses the directory marker and the given regex engine, and uses the regex exactly when the regex field is truthy |
| ImportStorage.PageKeys | label_studio/io_storages/oci/models.py:111-117 | The inner loop emits exactly the page's survivors, in listing order |
| ImportStorage.ListPages | label_studio/io_storages/oci/models.py:109-121 | The listing loop makes exactly the calls of CallsFor, yields exactly YieldedKeys, and ends with the error of a failing last call, or with none |
| ImportStorage.CallsForArguments | label_studio/io_storages/oci/models.py:109-119 | Every listing call names the namespace and bucket; the first has no start cursor, and each later one passes the previous page's next-start value |
| ImportStorage.FailedCallEnds | label_studio/io_storages/oci/models.py:109-119 | A listing call that raises is the last one made; it yields nothing and its error ends the enumeration |
| ImportStorage.LastPageEnds | label_studio/io_storages/oci/models.py:118-121 | A page without a cursor is the last response, and the enumeration ends after it without error |
| ImportStorage.IterKeys | label_studio/io_storages/oci/models.py:103-121 | A session failure makes no call and yields nothing. Otherwise there is exactly one listing call per response, all with the namespace and bucket. The first call has no cursor, and each later call passes the previous page's cursor verbatim. The keys are the concatenation of each page's survivors. A failing call ends the run with its error |
| ImportStorage.SurvivorsMembership | label_studio/io_storages/oci/models.py:111-117 | A name is yielded from a page iff it is listed there, is not the marker, and matches the regex when one is set |
| ImportStorage.SurvivorsAppend | label_studio/io_storages/oci/models.py:111-117 | Filtering distributes over concatenation of listings |
| ImportStorage.SurvivorsAllKept | label_studio/io_storages/oci/models.py:111-117 | When every name is kept, the page is yielded as listed, with nothing re-sorted or removed |
| ImportStorage.YieldedKeysKept | label_studio/io_storages/oci/models.py:112-117 | No key yielded by any number of pages is the directory marker, and with a regex every such key matches it at the start |
| ImportStorage.YieldedKeysAppend | label_studio/io_storages/oci/models.py:110-121 | The keys of consecutive runs of pages follow each other |
| ImportStorage.UnsetPrefixMarker | label_studio/io_storages/oci/models.py:107-112 | With no prefix, the marker is "/" |
| ImportStorage.MarkerOfSlashedPrefix | label_studio/io_storages/oci/models.py:112 | The prefixes "a", "a/" and "a//" all give the marker "a/" |
| ImportStorage.ThreeNamePage | label_studio/io_storages/oci/models.py:111-117 | A three-name page yields each name that is kept, in order |
| ImportStorage.ExampleMarkerSkipped | label_studio/io_storages/oci/models.py:107-117 | With prefix "a", the listing "a/", "a/1.json", "a/2.json" yields the two JSON names |
| ImportStorage.ExampleRegexFilter | label_studio/io_storages/oci/models.py:108-117 | With the regex "a/1.*", that listing yields only "a/1.json" |
| ImportStorage.ObjectEndpoint | label_studio/io_storages/oci/models.py:127 | The object's URL is the rendered pre-authenticated base followed by exactly the key |
| ImportStorage.GetData | label_studio/io_storages/oci/models.py:123-136 | A session failure propagates. BLOB mode gives the one-entry map from the undefined-data name to the URL (pre-authenticated base + key). JSON mode succeeds iff the load gives a JSON object, and then returns its fields unchanged. A load error propagates, and a non-object gives the not-a-dictionary error naming the key |
| ImportStorage.BlobModeReadsNothing | label_studio/io_storages/oci/models.py:128-129 | In BLOB mode the result does not depend on what a GET would return |
| ExportStorage.ExportKey | label_studio/io_storages/oci/models.py:150 | The export key ends with the link's key. With a truthy prefix it is prefix + "/" followed by the link's key. Otherwise it is the link's key |
| ExportStorage.ExportKeyInjective | label_studio/io_storages/oci/models.py:150 | Under one prefix, different link keys give different export keys |
| ExportStorage.WithLinkGrows | label_studio/io_storages/oci/models.py:149 | Get-or-create makes the link present, appends at most one row, and keeps the rows unique |
| ExportStorage.LinkTable.Create | label_studio/io_storages/oci/models.py:149 | Creating a link updates the table to the get-or-create result and keeps it valid |
| ExportStorage.ObjectStore.PutObject | label_studio/io_storages/oci/models.py:151 | The object is stored under its name unless the call raises, in which case nothing changes |
| ExportStorage.WriteStep | label_studio/io_storages/oci/models.py:150-151 | The write succeeds iff the prefix, client and bucket reads and put all succeed. The first step that raises (the prefix, client or bucket read, or put) gives the error. On success exactly one object changes: the document is stored at (namespace, bucket, export key) and every other object is kept |
| ExportStorage.SaveAnnotation | label_studio/io_storages/oci/models.py:142-153 | The result, the logged error, the new link rows and the new objects are those of SaveSpec on the old state |
| ExportStorage.SaveIsBestEffort | label_studio/io_storages/oci/models.py:146-153 | Once serialization and the namespace succeed, the save returns normally and the link exists, whatever the write did |
| ExportStorage.SaveRaisesOnlyBeforeLink | label_studio/io_storages/oci/models.py:144-145 | A save that raises changed nothing and raised the serializer's or the namespace lookup's error |
| ExportStorage.SaveFrame | label_studio/io_storages/oci/models.py:146-153 | Links only grow, by at most one row, and stay unique. The objects change only when serialization, the namespace lookup, every read in the guarded block and put all succeeded, and then only by the serialized annotation at (namespace, bucket, export key) |
| ExportStorage.SaveTwiceOneLink | label_studio/io_storages/oci/models.py:149 | Saving the same annotation to the same storage again adds no second link |
| ExportStorage.AsWrittenAttributesUndeclared | label_studio/io_storages/oci/models.py:150-151 | As written, the reads of `prefix`, `object_stroage` and `bucket` each raise the AttributeError naming that attribute. The intended reads give the bucket prefix, the client and the bucket name |
| ExportStorage.AsWrittenNeverWrites | label_studio/io_storages/oci/models.py:149-153 | As written, a save never writes an object. Once serialization and the namespace lookup succeed, it returns normally, logs the missing `prefix` attribute, and leaves the link |
| ExportStorage.IntendedSaveWrites | label_studio/io_storages/oci/models.py:149-153 | Reading the bucket prefix, the client and the bucket name: if put succeeds, the serialized annotation is stored at the export key and nothing is logged; if put raises, the error is logged, the objects are unchanged, and the link stays |
| ExportStorage.AsWrittenDiffersFromIntended | label_studio/io_storages/oci/models.py:150-151 | On a save whose collaborators all succeed, the as-written code leaves the bucket empty and the intended code does not |
| ExportStorage.ExportAllStopsAtFailure | label_studio/io_storages/oci/models.py:159-161 | Once one save raises, the later storages are not touched and the fan-out's outcome is that save's |
| ExportStorage.ExportAllLinksEveryStorage | label_studio/io_storages/oci/models.py:155-161 | The fan-out keeps earlier links and keeps links unique; when it completes, every storage has a link for the annotation |
| ExportStorage.ExportAllWithoutPrefixWritesNothing | label_studio/io_storages/oci/models.py:155-161 | When every save's prefix read raises, the fan-out writes no object |
| ExportStorage.AsWrittenFanOutNeverWrites | label_studio/io_storages/oci/models.py:150-161 | As written, the fan-out over any storages writes no object; when it completes, every storage still has a link for the annotation |
| ExportStorage.IntendedFanOutWrites | label_studio/io_storages/oci/models.py:155-161 | With the intended reads, a fan-out whose serializations, namespace lookups and puts succeed completes. Afterwards there is an object at every storage's (namespace, bucket name, export key). A storage that no later storage shares that name with holds its own document there; of storages sharing a name, the last one's document wins. Objects at other names are unchanged |
| ExportStorage.ExportAnnotationToStorages | label_studio/io_storages/oci/models.py:155-161 | Without the export-storage relation nothing changes. Otherwise the outcome and the new state are those of ExportAllSpec with each storage's own save environment, saving to each storage in order |

## Left out

- Signing, the SDK client, `get_namespace` and `get_signer` (models.py:72-90) are not modelled. They are SDK calls, and the model sees only their outcome. The key material they receive is `GetPrivateKey`'s result.
- HTTP, UTF-8 decoding and JSON parsing are one `load` outcome. `get_data` does not check the HTTP status; neither does the model.
- The regex engine is an abstract matcher. A pattern that fails to compile appears only as the session or listing error the caller passes in.
- `iterkeys` is a generator. The model runs it to completion and records all yields. How yields interleave lazily with the listing calls is not captured.
- The listing's `delimiter` and `fields` arguments are the same on every call, so `ListCall` does not record them.
- ImportStorage.IterKeys: assumes the listing responses form one cursor chain ending in a page without a cursor or in a failure. A service that never stops returning cursors would make the source loop forever.
- Log messages and exception texts are not modelled. Only the error kinds and the key or endpoint they name are.
- `io_storages/base_models.py` is not part of this model. That base layer gets or creates an export link for each (storage, annotation) pair; `WithLink` models this. `Annotation.linkKey` stands for the object key the link derives. `_get_serialized_data` is an outcome passed in.
- Database failures inside `transaction.atomic`, and rollback, are not modelled: link creation always succeeds.
- The post-save hook's `hasattr` test is an `Option` over the project's export storages. The relation's name comes from the base storage models, which are not part of this model. Whenever that name is not `io_storages_ociexportstorages`, `storages` is None and the hook exports nothing.
- `DATA_UNDEFINED_NAME` is a parameter of `GetData`.
- `scan_and_create_links` and the link models (models.py:138-139, 164-169) belong to the base storage layer.
- `api.py` and `serializers.py` are not part of this model.
- StorageMixin.ReadTextAttribute: reads only text fields and undeclared names. The save reads no other attribute as text, so other declared attributes are not given values.
- JSON key order and the byte encoding of the written document are not modelled: the stored value is the serialized JSON.

## Findings

| source | as written | input that shows it | evidently intended | confidence | as-written member | corrected member |
|---|---|---|---|---|---|---|
| label_studio/io_storages/oci/models.py:150-151 | Computing the export key reads `self.prefix`, and the write reads `self.object_stroage` and `self.bucket`. The storage declares none of these attributes, so the first read raises `AttributeError`. The guarded block catches and logs it after the link is created, so no annotation is ever written | Any annotation saved to an OCI export storage whose serializer and namespace lookup succeed: the bucket stays empty while the link row is created | Read `bucket_prefix`, the storage's client and `bucket_name`, so the serialized annotation is written at prefix/key | high (not executed) | ExportStorage.AsWrittenNeverWrites | ExportStorage.IntendedSaveWrites |
