/**
 * The export storage: writing a saved annotation to the bucket on a
 * best-effort basis, after recording an export link, and the fan-out that
 * does so for every export storage of the annotation's project.
 */
module ExportStorage {
  import opened Wrappers
  import opened OciTypes
  import opened StorageMixin

  /** An annotation, with the object key the link layer derives for it. */
  datatype Annotation = Annotation(id: nat, linkKey: string)

  /** An export storage attached to a project: its identity and its fields. */
  datatype ExportStorageRef = ExportStorageRef(id: nat, config: StorageConfig)

  /** A link row: this storage has exported, or tried to export, this annotation. */
  datatype ExportLink = ExportLink(storage: nat, annotation: nat)

  /** The address of an object written by put_object. */
  datatype ObjectName = ObjectName(namespace: string, bucket: Option<string>, key: string)

  /**
   * What the collaborators of one save do: the serializer's result and the
   * namespace lookup (both before the guarded block), the attribute reads of
   * the export-key and write lines (the prefix, then the client, then the
   * bucket), and whether put_object raised.
   */
  datatype ExportEnv = ExportEnv(
    serialized: Result<Json, Error>,
    namespace: Result<string, Error>,
    prefix: Result<Option<string>, Error>,
    client: Result<(), Error>,
    bucket: Result<Option<string>, Error>,
    put: Option<Error>)

  /** The parts of an export's environment that the outside world decides. */
  datatype StorageFaults = StorageFaults(
    serialized: Result<Json, Error>,
    namespace: Result<string, Error>,
    put: Option<Error>)

  /** The local link rows and the remote objects, together. */
  datatype World = World(links: seq<ExportLink>, objects: map<ObjectName, Json>)

  /** What a save returns, the world after it, and the exception it logged and swallowed. */
  datatype SaveOutcome = SaveOutcome(result: Result<(), Error>, world: World, logged: Option<Error>)

  // ---------------------------------------------------------------------
  // Export key
  // ---------------------------------------------------------------------

  /**
   * The remote key of an annotation: `prefix + "/" + key` when the prefix is
   * truthy, else the key. It always ends with the link's key.
   */
  function ExportKey(prefix: Option<string>, linkKey: string): (key: string)
    ensures |key| >= |linkKey| && key[|key| - |linkKey|..] == linkKey
    ensures Truthy(prefix) ==> prefix.value + "/" <= key && |key| == |prefix.value| + 1 + |linkKey|
    ensures !Truthy(prefix) ==> key == linkKey
  {
    if Truthy(prefix) then prefix.value + "/" + linkKey else linkKey
  }

  /** Under one prefix, distinct annotations' keys never collide. */
  lemma ExportKeyInjective(prefix: Option<string>, k1: string, k2: string)
    requires ExportKey(prefix, k1) == ExportKey(prefix, k2)
    ensures k1 == k2
  {
    if Truthy(prefix) {
      var p := prefix.value + "/";
      assert ExportKey(prefix, k1)[|p|..] == k1;
      assert ExportKey(prefix, k2)[|p|..] == k2;
    }
  }

  // ---------------------------------------------------------------------
  // Links
  // ---------------------------------------------------------------------

  /** No two link rows are for the same storage and annotation. */
  predicate UniqueLinks(links: seq<ExportLink>)
  {
    forall i, j :: 0 <= i < j < |links| ==> links[i] != links[j]
  }

  /** Get-or-create: the rows after ensuring the link exists. */
  function WithLink(links: seq<ExportLink>, link: ExportLink): seq<ExportLink>
  {
    if link in links then links else links + [link]
  }

  /**
   * Ensuring a link makes it present, only ever appends (at most one row),
   * and keeps rows unique.
   */
  lemma WithLinkGrows(links: seq<ExportLink>, link: ExportLink)
    ensures link in WithLink(links, link)
    ensures links <= WithLink(links, link)
    ensures |WithLink(links, link)| <= |links| + 1
    ensures UniqueLinks(links) ==> UniqueLinks(WithLink(links, link))
  {
  }

  /** The table of export links: a growing sequence of unique rows. */
  class LinkTable {
    var rows: seq<ExportLink>

    ghost predicate Valid()
      reads this
    {
      UniqueLinks(rows)
    }

    constructor ()
      ensures Valid() && rows == []
    {
      rows := [];
    }

    /** Get-or-create the link of an annotation to a storage. */
    method Create(storage: nat, annotation: nat) returns (link: ExportLink)
      requires Valid()
      modifies this
      ensures Valid()
      ensures link == ExportLink(storage, annotation)
      ensures rows == WithLink(old(rows), link)
    {
      link := ExportLink(storage, annotation);
      if link !in rows {
        rows := rows + [link];
      }
      WithLinkGrows(old(rows), link);
    }
  }

  /** The remote object store as put_object changes it. */
  class ObjectStore {
    var objects: map<ObjectName, Json>

    constructor ()
      ensures objects == map[]
    {
      objects := map[];
    }

    /** put_object: stores the document, unless the call raises `fault`. */
    method PutObject(name: ObjectName, body: Json, fault: Option<Error>) returns (raised: Option<Error>)
      modifies this
      ensures raised == fault
      ensures objects == if fault.None? then old(objects)[name := body] else old(objects)
    {
      raised := fault;
      if fault.None? {
        objects := objects[name := body];
      }
    }
  }

  // ---------------------------------------------------------------------
  // save_annotation
  // ---------------------------------------------------------------------

  /**
   * The guarded write: read the prefix and compute the key, read the client
   * and the bucket, and put the document; the first step that raises ends it.
   */
  function WriteStep(objects: map<ObjectName, Json>, namespace: string, linkKey: string,
                     body: Json, env: ExportEnv): (r: Result<map<ObjectName, Json>, Error>)
    ensures r.Success? <==> env.prefix.Success? && env.client.Success? && env.bucket.Success? && env.put.None?
    ensures env.prefix.Failure? ==> r == Failure(env.prefix.error)
    ensures env.prefix.Success? && env.client.Failure? ==> r == Failure(env.client.error)
    ensures env.prefix.Success? && env.client.Success? && env.bucket.Failure? ==> r == Failure(env.bucket.error)
    ensures env.prefix.Success? && env.client.Success? && env.bucket.Success? && env.put.Some? ==> r == Failure(env.put.value)
    ensures r.Success? ==>
      var name := ObjectName(namespace, env.bucket.value, ExportKey(env.prefix.value, linkKey));
      && r.value.Keys == objects.Keys + {name}
      && r.value[name] == body
      && (forall other :: other in objects && other != name ==> r.value[other] == objects[other])
  {
    match env.prefix
    case Failure(e) => Failure(e)
    case Success(prefix) =>
      var key := ExportKey(prefix, linkKey);
      match env.client
      case Failure(e) => Failure(e)
      case Success(_) =>
        match env.bucket
        case Failure(e) => Failure(e)
        case Success(bucket) =>
          match env.put
          case Some(e) => Failure(e)
          case None => Success(objects[ObjectName(namespace, bucket, key) := body])
  }

  /**
   * save_annotation on the world: serializing and looking up the namespace
   * may raise and end the save with nothing changed; after that the link is
   * created first, and whatever the write step raises is logged and
   * swallowed, leaving the link in place.
   */
  function SaveSpec(w: World, storage: nat, ann: Annotation, env: ExportEnv): SaveOutcome
  {
    match env.serialized
    case Failure(e) => SaveOutcome(Failure(e), w, None)
    case Success(body) =>
      match env.namespace
      case Failure(e) => SaveOutcome(Failure(e), w, None)
      case Success(ns) =>
        var links := WithLink(w.links, ExportLink(storage, ann.id));
        match WriteStep(w.objects, ns, ann.linkKey, body, env)
        case Failure(e) => SaveOutcome(Success(()), World(links, w.objects), Some(e))
        case Success(objects) => SaveOutcome(Success(()), World(links, objects), None)
  }

  /**
   * save_annotation, step by step on the link table and the object store.
   * It creates the link before it writes, and logs instead of raising
   * anything that goes wrong after the link exists.
   */
  method SaveAnnotation(storage: nat, ann: Annotation, env: ExportEnv, links: LinkTable, store: ObjectStore)
    returns (result: Result<(), Error>, logged: Option<Error>)
    requires links.Valid()
    modifies links, store
    ensures links.Valid()
    ensures SaveOutcome(result, World(links.rows, store.objects), logged)
         == SaveSpec(World(old(links.rows), old(store.objects)), storage, ann, env)
  {
    if env.serialized.Failure? {
      return Failure(env.serialized.error), None;
    }
    var body := env.serialized.value;
    if env.namespace.Failure? {
      return Failure(env.namespace.error), None;
    }
    var namespace := env.namespace.value;
    result := Success(());
    var link := links.Create(storage, ann.id);
    if env.prefix.Failure? {
      logged := Some(env.prefix.error);
      return;
    }
    var key := ExportKey(env.prefix.value, ann.linkKey);
    if env.client.Failure? {
      logged := Some(env.client.error);
      return;
    }
    if env.bucket.Failure? {
      logged := Some(env.bucket.error);
      return;
    }
    logged := store.PutObject(ObjectName(namespace, env.bucket.value, key), body, env.put);
  }

  /**
   * Once serializing and the namespace lookup succeed, the save never
   * raises and the link exists afterwards, whether or not the write worked.
   */
  lemma SaveIsBestEffort(w: World, storage: nat, ann: Annotation, env: ExportEnv)
    requires env.serialized.Success? && env.namespace.Success?
    ensures var o := SaveSpec(w, storage, ann, env);
            && o.result.Success?
            && ExportLink(storage, ann.id) in o.world.links
            && o.world.links == WithLink(w.links, ExportLink(storage, ann.id))
  {
  }

  /** A save that raises changed nothing, and raised the serializer's or the namespace lookup's error. */
  lemma SaveRaisesOnlyBeforeLink(w: World, storage: nat, ann: Annotation, env: ExportEnv)
    ensures var o := SaveSpec(w, storage, ann, env);
            o.result.Failure? ==>
              && o.world == w
              && o.logged.None?
              && ((env.serialized.Failure? && o.result.error == env.serialized.error)
                  || (env.serialized.Success? && env.namespace.Failure?
                      && o.result.error == env.namespace.error))
  {
  }

  /**
   * The links only grow, by at most one row, and stay unique; the objects
   * change only by the one write at the export key, and only when the write
   * step raised nothing.
   */
  lemma SaveFrame(w: World, storage: nat, ann: Annotation, env: ExportEnv)
    ensures var o := SaveSpec(w, storage, ann, env);
            && w.links <= o.world.links
            && |o.world.links| <= |w.links| + 1
            && (UniqueLinks(w.links) ==> UniqueLinks(o.world.links))
            && (o.world.objects != w.objects ==>
                  && o.logged.None?
                  && env.serialized.Success? && env.namespace.Success?
                  && env.prefix.Success? && env.client.Success? && env.bucket.Success?
                  && env.put.None?
                  && o.world.objects == w.objects[ObjectName(env.namespace.value, env.bucket.value,
                                                    ExportKey(env.prefix.value, ann.linkKey))
                                                  := env.serialized.value])
  {
  }

  /** Saving the same annotation to the same storage again adds no second link. */
  lemma SaveTwiceOneLink(w: World, storage: nat, ann: Annotation, env1: ExportEnv, env2: ExportEnv)
    requires SaveSpec(w, storage, ann, env1).result.Success?
    ensures var o1 := SaveSpec(w, storage, ann, env1);
            SaveSpec(o1.world, storage, ann, env2).world.links == o1.world.links
  {
  }

  // ---------------------------------------------------------------------
  // The attributes the write reads: as written, and as intended
  // ---------------------------------------------------------------------

  /**
   * The environment as the code is written: the export-key line reads the
   * attribute `prefix`, and the write line reads `object_stroage` and then
   * `bucket`.
   */
  function AsWrittenEnv(c: StorageConfig, faults: StorageFaults): ExportEnv
  {
    ExportEnv(faults.serialized, faults.namespace,
              ReadTextAttribute(c, "prefix"),
              ReadClient("object_stroage"),
              ReadTextAttribute(c, "bucket"),
              faults.put)
  }

  /** The intended environment: the bucket prefix field, the storage's client, and the bucket name field. */
  function IntendedEnv(c: StorageConfig, faults: StorageFaults): ExportEnv
  {
    ExportEnv(faults.serialized, faults.namespace,
              ReadTextAttribute(c, "bucket_prefix"),
              ReadClient("get_object_storage"),
              ReadTextAttribute(c, "bucket_name"),
              faults.put)
  }

  /**
   * The storage declares none of the three attributes the write reads as
   * written, so each read raises; the intended reads give the bucket prefix,
   * the client and the bucket name.
   */
  lemma AsWrittenAttributesUndeclared(c: StorageConfig, faults: StorageFaults)
    ensures AsWrittenEnv(c, faults).prefix == Failure(MissingAttribute("prefix"))
    ensures AsWrittenEnv(c, faults).client == Failure(MissingAttribute("object_stroage"))
    ensures AsWrittenEnv(c, faults).bucket == Failure(MissingAttribute("bucket"))
    ensures IntendedEnv(c, faults).prefix == Success(c.bucketPrefix)
    ensures IntendedEnv(c, faults).client == Success(())
    ensures IntendedEnv(c, faults).bucket == Success(c.bucketName)
  {
  }

  /**
   * As written, a save never writes anything: the link is created, the read
   * of `prefix` raises, and the error is logged and swallowed.
   */
  lemma AsWrittenNeverWrites(w: World, c: StorageConfig, storage: nat, ann: Annotation, faults: StorageFaults)
    ensures var o := SaveSpec(w, storage, ann, AsWrittenEnv(c, faults));
            && o.world.objects == w.objects
            && (faults.serialized.Success? && faults.namespace.Success? ==>
                  && o.result.Success?
                  && o.logged == Some(MissingAttribute("prefix"))
                  && ExportLink(storage, ann.id) in o.world.links)
  {
    AsWrittenAttributesUndeclared(c, faults);
  }

  /**
   * As intended, a save whose collaborators all succeed writes the
   * serialized annotation at the export key in the storage's bucket, and
   * logs nothing; if only the write raises, the link is still there.
   */
  lemma IntendedSaveWrites(w: World, c: StorageConfig, storage: nat, ann: Annotation, faults: StorageFaults)
    requires faults.serialized.Success? && faults.namespace.Success?
    ensures var o := SaveSpec(w, storage, ann, IntendedEnv(c, faults));
            var name := ObjectName(faults.namespace.value, c.bucketName, ExportKey(c.bucketPrefix, ann.linkKey));
            && o.result.Success?
            && ExportLink(storage, ann.id) in o.world.links
            && (faults.put.None? ==> o.logged.None? && o.world.objects == w.objects[name := faults.serialized.value])
            && (faults.put.Some? ==> o.logged == faults.put && o.world.objects == w.objects)
  {
    AsWrittenAttributesUndeclared(c, faults);
  }

  /** The two differ on every save that gets past serialization and the namespace lookup and whose put would succeed. */
  lemma AsWrittenDiffersFromIntended(c: StorageConfig, storage: nat, ann: Annotation, faults: StorageFaults)
    requires faults.serialized.Success? && faults.namespace.Success? && faults.put.None?
    ensures SaveSpec(World([], map[]), storage, ann, AsWrittenEnv(c, faults)).world.objects == map[]
    ensures SaveSpec(World([], map[]), storage, ann, IntendedEnv(c, faults)).world.objects != map[]
  {
    AsWrittenNeverWrites(World([], map[]), c, storage, ann, faults);
    IntendedSaveWrites(World([], map[]), c, storage, ann, faults);
    var name := ObjectName(faults.namespace.value, c.bucketName, ExportKey(c.bucketPrefix, ann.linkKey));
    assert name in map[][name := faults.serialized.value];
  }

  // ---------------------------------------------------------------------
  // Fan-out to every export storage of the project
  // ---------------------------------------------------------------------

  /**
   * Saving to each storage in turn, `envs[i]` being what the collaborators
   * of the i-th save do; an error raised by one save (serializer or
   * namespace lookup) propagates and the later storages are not reached.
   */
  function ExportAllSpec(w: World, storages: seq<ExportStorageRef>, ann: Annotation,
                         envs: seq<ExportEnv>): (Result<(), Error>, World)
    requires |envs| == |storages|
  {
    if storages == [] then (Success(()), w)
    else
      var n := |storages|;
      var prev := ExportAllSpec(w, storages[..n - 1], ann, envs[..n - 1]);
      if prev.0.Failure? then prev
      else
        var o := SaveSpec(prev.1, storages[n - 1].id, ann, envs[n - 1]);
        (o.result, o.world)
  }

  /** The environments of the saves as the code is written, one per storage. */
  function AsWrittenEnvs(storages: seq<ExportStorageRef>, faults: seq<StorageFaults>): (envs: seq<ExportEnv>)
    requires |faults| == |storages|
    ensures |envs| == |storages|
    ensures forall i :: 0 <= i < |storages| ==> envs[i] == AsWrittenEnv(storages[i].config, faults[i])
  {
    seq(|storages|, i requires 0 <= i < |storages| => AsWrittenEnv(storages[i].config, faults[i]))
  }

  /** The environments of the saves with the intended reads, one per storage. */
  function IntendedEnvs(storages: seq<ExportStorageRef>, faults: seq<StorageFaults>): (envs: seq<ExportEnv>)
    requires |faults| == |storages|
    ensures |envs| == |storages|
    ensures forall i :: 0 <= i < |storages| ==> envs[i] == IntendedEnv(storages[i].config, faults[i])
  {
    seq(|storages|, i requires 0 <= i < |storages| => IntendedEnv(storages[i].config, faults[i]))
  }

  /** Once a prefix of the storages has raised, the rest change nothing. */
  lemma {:induction false} ExportAllStopsAtFailure(w: World, storages: seq<ExportStorageRef>, ann: Annotation,
                                                   envs: seq<ExportEnv>, k: nat)
    requires |envs| == |storages| && k <= |storages|
    requires ExportAllSpec(w, storages[..k], ann, envs[..k]).0.Failure?
    ensures ExportAllSpec(w, storages, ann, envs) == ExportAllSpec(w, storages[..k], ann, envs[..k])
    decreases |storages|
  {
    if k == |storages| {
      assert storages[..k] == storages && envs[..k] == envs;
    } else {
      var n := |storages|;
      assert storages[..n - 1][..k] == storages[..k];
      assert envs[..n - 1][..k] == envs[..k];
      ExportAllStopsAtFailure(w, storages[..n - 1], ann, envs[..n - 1], k);
    }
  }

  /**
   * A fan-out that completes leaves a link for the annotation to every
   * storage, keeps every earlier link, and keeps the links unique.
   */
  lemma {:induction false} ExportAllLinksEveryStorage(w: World, storages: seq<ExportStorageRef>, ann: Annotation,
                                                      envs: seq<ExportEnv>)
    requires |envs| == |storages|
    ensures var (r, w') := ExportAllSpec(w, storages, ann, envs);
            && w.links <= w'.links
            && (UniqueLinks(w.links) ==> UniqueLinks(w'.links))
            && (r.Success? ==> forall i :: 0 <= i < |storages| ==> ExportLink(storages[i].id, ann.id) in w'.links)
  {
    if storages != [] {
      var n := |storages|;
      var prev := ExportAllSpec(w, storages[..n - 1], ann, envs[..n - 1]);
      ExportAllLinksEveryStorage(w, storages[..n - 1], ann, envs[..n - 1]);
      if prev.0.Success? {
        var env := envs[n - 1];
        SaveFrame(prev.1, storages[n - 1].id, ann, env);
        var o := SaveSpec(prev.1, storages[n - 1].id, ann, env);
        if o.result.Success? {
          SaveIsBestEffort(prev.1, storages[n - 1].id, ann, env);
          forall i | 0 <= i < n
            ensures ExportLink(storages[i].id, ann.id) in o.world.links
          {
            if i < n - 1 {
              assert storages[..n - 1][i] == storages[i];
              assert prev.1.links <= o.world.links;
            }
          }
        }
      }
    }
  }

  /** A fan-out in which every save's prefix read raises writes no object. */
  lemma {:induction false} ExportAllWithoutPrefixWritesNothing(w: World, storages: seq<ExportStorageRef>,
                                                               ann: Annotation, envs: seq<ExportEnv>)
    requires |envs| == |storages|
    requires forall i :: 0 <= i < |envs| ==> envs[i].prefix.Failure?
    ensures ExportAllSpec(w, storages, ann, envs).1.objects == w.objects
  {
    if storages != [] {
      var n := |storages|;
      assert forall i :: 0 <= i < n - 1 ==> envs[..n - 1][i] == envs[i];
      ExportAllWithoutPrefixWritesNothing(w, storages[..n - 1], ann, envs[..n - 1]);
    }
  }

  /**
   * As written, the fan-out never writes an object to any storage, while
   * every save that returns still leaves its link.
   */
  lemma AsWrittenFanOutNeverWrites(w: World, storages: seq<ExportStorageRef>, ann: Annotation,
                                   faults: seq<StorageFaults>)
    requires |faults| == |storages|
    ensures var (r, w') := ExportAllSpec(w, storages, ann, AsWrittenEnvs(storages, faults));
            && w'.objects == w.objects
            && (r.Success? ==> forall i :: 0 <= i < |storages| ==> ExportLink(storages[i].id, ann.id) in w'.links)
  {
    var envs := AsWrittenEnvs(storages, faults);
    forall i | 0 <= i < |envs|
      ensures envs[i].prefix.Failure?
    {
      AsWrittenAttributesUndeclared(storages[i].config, faults[i]);
    }
    ExportAllWithoutPrefixWritesNothing(w, storages, ann, envs);
    ExportAllLinksEveryStorage(w, storages, ann, envs);
  }

  /** Where the intended save of an annotation to a storage puts its document. */
  function IntendedName(storage: ExportStorageRef, ann: Annotation, faults: StorageFaults): ObjectName
    requires faults.namespace.Success?
  {
    ObjectName(faults.namespace.value, storage.config.bucketName, ExportKey(storage.config.bucketPrefix, ann.linkKey))
  }

  /** The names of the intended saves, storage by storage. */
  function IntendedNames(storages: seq<ExportStorageRef>, ann: Annotation, faults: seq<StorageFaults>): (names: seq<ObjectName>)
    requires |faults| == |storages|
    requires forall i :: 0 <= i < |faults| ==> faults[i].namespace.Success?
    ensures |names| == |storages|
    ensures forall i :: 0 <= i < |storages| ==> names[i] == IntendedName(storages[i], ann, faults[i])
  {
    seq(|storages|, i requires 0 <= i < |storages| => IntendedName(storages[i], ann, faults[i]))
  }

  /** The names of one more storage's intended save follow those of the others. */
  lemma IntendedNamesSnoc(storages: seq<ExportStorageRef>, ann: Annotation, faults: seq<StorageFaults>)
    requires |faults| == |storages| > 0
    requires forall i :: 0 <= i < |faults| ==> faults[i].namespace.Success?
    ensures var n := |storages|;
            IntendedNames(storages, ann, faults)
              == IntendedNames(storages[..n - 1], ann, faults[..n - 1]) + [IntendedName(storages[n - 1], ann, faults[n - 1])]
  {
    var n := |storages|;
    var names, earlier := IntendedNames(storages, ann, faults), IntendedNames(storages[..n - 1], ann, faults[..n - 1]);
    forall i | 0 <= i < n - 1
      ensures earlier[i] == names[i]
    {
      assert storages[..n - 1][i] == storages[i] && faults[..n - 1][i] == faults[i];
    }
    assert names == earlier + [names[n - 1]];
  }

  /** The documents of the intended saves, storage by storage. */
  function Documents(faults: seq<StorageFaults>): (docs: seq<Json>)
    requires forall i :: 0 <= i < |faults| ==> faults[i].serialized.Success?
    ensures |docs| == |faults|
    ensures forall i :: 0 <= i < |faults| ==> docs[i] == faults[i].serialized.value
  {
    seq(|faults|, i requires 0 <= i < |faults| => faults[i].serialized.value)
  }

  /** The document of one more storage follows those of the others. */
  lemma DocumentsSnoc(faults: seq<StorageFaults>)
    requires |faults| > 0
    requires forall i :: 0 <= i < |faults| ==> faults[i].serialized.Success?
    ensures Documents(faults) == Documents(faults[..|faults| - 1]) + [faults[|faults| - 1].serialized.value]
  {
    var n := |faults|;
    var docs, earlier := Documents(faults), Documents(faults[..n - 1]);
    forall i | 0 <= i < n - 1
      ensures earlier[i] == docs[i]
    {
      assert faults[..n - 1][i] == faults[i];
    }
    assert docs == earlier + [docs[n - 1]];
  }

  /**
   * `after` is `before` with `docs[i]` put at `names[i]` in turn: every name
   * is present, a name not written again later holds its document, and every
   * other object is kept.
   */
  ghost predicate Written(before: map<ObjectName, Json>, names: seq<ObjectName>, docs: seq<Json>,
                          after: map<ObjectName, Json>)
    requires |names| == |docs|
  {
    && before.Keys <= after.Keys
    && (forall i :: 0 <= i < |names| ==> names[i] in after)
    && (forall i :: 0 <= i < |names| && (forall j :: i < j < |names| ==> names[j] != names[i]) ==>
          after[names[i]] == docs[i])
    && (forall k :: k in before && k !in names ==> after[k] == before[k])
  }

  /** One more put extends a run of puts. */
  lemma WrittenSnoc(before: map<ObjectName, Json>, names: seq<ObjectName>, docs: seq<Json>,
                    mid: map<ObjectName, Json>, name: ObjectName, doc: Json)
    requires |names| == |docs| && Written(before, names, docs, mid)
    ensures Written(before, names + [name], docs + [doc], mid[name := doc])
  {
    var names', docs', after := names + [name], docs + [doc], mid[name := doc];
    forall i | 0 <= i < |names'|
      ensures names'[i] in after
    {
      if i < |names| {
        assert names'[i] == names[i];
      }
    }
    forall i | 0 <= i < |names'| && (forall j :: i < j < |names'| ==> names'[j] != names'[i])
      ensures after[names'[i]] == docs'[i]
    {
      if i < |names| {
        assert names'[|names|] != names'[i];
        assert names'[i] == names[i] && docs'[i] == docs[i];
        assert forall j :: i < j < |names| ==> names[j] == names'[j];
      }
    }
    forall k | k in before && k !in names'
      ensures after[k] == before[k]
    {
      assert k !in names by { assert forall j :: 0 <= j < |names| ==> names[j] == names'[j]; }
    }
  }

  /** The intended fan-out, in terms of `Written`. */
  lemma {:induction false} IntendedFanOutWritten(w: World, storages: seq<ExportStorageRef>, ann: Annotation,
                                                 faults: seq<StorageFaults>)
    requires |faults| == |storages|
    requires forall i :: 0 <= i < |faults| ==>
               faults[i].serialized.Success? && faults[i].namespace.Success? && faults[i].put.None?
    ensures var (r, w') := ExportAllSpec(w, storages, ann, IntendedEnvs(storages, faults));
            r.Success? && Written(w.objects, IntendedNames(storages, ann, faults), Documents(faults), w'.objects)
  {
    if storages != [] {
      var n := |storages|;
      var envs := IntendedEnvs(storages, faults);
      var front, last, lf := storages[..n - 1], storages[n - 1], faults[n - 1];
      assert envs[..n - 1] == IntendedEnvs(front, faults[..n - 1]);
      IntendedNamesSnoc(storages, ann, faults);
      DocumentsSnoc(faults);
      IntendedFanOutWritten(w, front, ann, faults[..n - 1]);
      var prev := ExportAllSpec(w, front, ann, envs[..n - 1]);
      IntendedSaveWrites(prev.1, last.config, last.id, ann, lf);
      WrittenSnoc(w.objects, IntendedNames(front, ann, faults[..n - 1]), Documents(faults[..n - 1]),
                  prev.1.objects, IntendedName(last, ann, lf), lf.serialized.value);
    }
  }

  /**
   * With the intended reads, a fan-out whose serializations, namespace
   * lookups and puts all succeed completes. Afterwards there is an object at
   * every storage's name. Each storage that no later storage shares a name
   * with holds its own document there; put overwrites, so of storages that
   * share a name the last one's document is stored. Objects at other names
   * are kept unchanged.
   */
  lemma IntendedFanOutWrites(w: World, storages: seq<ExportStorageRef>, ann: Annotation,
                             faults: seq<StorageFaults>)
    requires |faults| == |storages|
    requires forall i :: 0 <= i < |faults| ==>
               faults[i].serialized.Success? && faults[i].namespace.Success? && faults[i].put.None?
    ensures var (r, w') := ExportAllSpec(w, storages, ann, IntendedEnvs(storages, faults));
            var names := IntendedNames(storages, ann, faults);
            && r.Success?
            && w.objects.Keys <= w'.objects.Keys
            && (forall i :: 0 <= i < |names| ==> names[i] in w'.objects)
            && (forall i :: 0 <= i < |names| && (forall j :: i < j < |names| ==> names[j] != names[i]) ==>
                  w'.objects[names[i]] == faults[i].serialized.value)
            && (forall k :: k in w.objects && k !in names ==> w'.objects[k] == w.objects[k])
  {
    IntendedFanOutWritten(w, storages, ann, faults);
  }

  /**
   * export_annotation_to_oci_storages: when the project has export
   * storages (`storages` is None when it has no such relation), calls
   * save_annotation on each of them in order, `envs[i]` being what the
   * collaborators of the i-th save do, stopping at the first error.
   * `AsWrittenEnvs` gives the saves as the code is written.
   */
  method ExportAnnotationToStorages(storages: Option<seq<ExportStorageRef>>, ann: Annotation,
                                    envs: seq<ExportEnv>, links: LinkTable, store: ObjectStore)
    returns (result: Result<(), Error>)
    requires links.Valid()
    requires storages.Some? ==> |envs| == |storages.value|
    modifies links, store
    ensures links.Valid()
    ensures storages.None? ==>
      result.Success? && links.rows == old(links.rows) && store.objects == old(store.objects)
    ensures storages.Some? ==>
      (result, World(links.rows, store.objects))
        == ExportAllSpec(World(old(links.rows), old(store.objects)), storages.value, ann, envs)
  {
    result := Success(());
    if storages.None? {
      return;
    }
    var all := storages.value;
    ghost var w0 := World(links.rows, store.objects);
    for i := 0 to |all|
      invariant links.Valid()
      invariant result == Success(())
      invariant (result, World(links.rows, store.objects)) == ExportAllSpec(w0, all[..i], ann, envs[..i])
    {
      assert all[..i + 1][..i] == all[..i];
      assert envs[..i + 1][..i] == envs[..i];
      var logged;
      result, logged := SaveAnnotation(all[i].id, ann, envs[i], links, store);
      assert (result, World(links.rows, store.objects)) == ExportAllSpec(w0, all[..i + 1], ann, envs[..i + 1]);
      if result.Failure? {
        ExportAllStopsAtFailure(w0, all, ann, envs, i + 1);
        return;
      }
    }
    assert all[..|all|] == all;
    assert envs[..|all|] == envs;
  }
}
