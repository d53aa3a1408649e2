/**
 * The MongoDB side: the collection a connector writes to, and `safe_insert_many`,
 * which turns the store's reply to an unordered bulk insert into a count.
 */
module Loader {
  import opened Wrappers
  import opened Parser

  const DefaultDatabase: string := "ssn_blocklist"
  const RawSuffix: string := "_raw"

  datatype ConfigError = MongoUriNotSet

  datatype Collection = Collection(database: string, name: string)

  /** `f"{connector_name}_raw"`. */
  function CollectionName(connector: string): (name: string)
    ensures |name| == |connector| + |RawSuffix|
    ensures name[..|connector|] == connector && name[|connector|..] == RawSuffix
  {
    connector + RawSuffix
  }

  /** Different connectors never share a collection. */
  lemma CollectionNameInjective(a: string, b: string)
    requires CollectionName(a) == CollectionName(b)
    ensures a == b
  {
    assert |a| == |b|;
    assert a == CollectionName(a)[..|a|];
  }

  /**
   * `get_mongo_collection(connector_name)`: fails when MONGO_URI is unset or
   * empty, otherwise names `<connector_name>_raw` in the configured database.
   */
  function GetMongoCollection(mongoUri: Option<string>, database: string, connector: string): (r: Result<Collection, ConfigError>)
    ensures r.Err? <==> mongoUri.None? || mongoUri.value == ""
    ensures r.Ok? ==> r.value.database == database && r.value.name == CollectionName(connector)
  {
    if mongoUri.None? || mongoUri.value == "" then Err(MongoUriNotSet)
    else Ok(Collection(database, CollectionName(connector)))
  }

  /**
   * The store's answer to `insert_many(docs, ordered=False)`: the inserted ids,
   * a `BulkWriteError` whose details may carry `nInserted`, or any other exception.
   */
  datatype StoreReply =
    | Acknowledged(insertedIds: seq<int>)
    | BulkWriteFailure(nInserted: Option<nat>)
    | StoreFailure

  /** The count `safe_insert_many` returns, and whether it called `insert_many` at all. */
  datatype Insertion = Insertion(count: nat, submitted: bool)

  /** `safe_insert_many(collection, docs)`; it never raises. */
  function SafeInsertMany(docs: seq<Record>, reply: StoreReply): (r: Insertion)
    ensures r.submitted <==> docs != []
    ensures !r.submitted ==> r.count == 0
  {
    if docs == [] then Insertion(0, false)
    else
      match reply
      case Acknowledged(ids) => Insertion(|ids|, true)
      case BulkWriteFailure(n) => Insertion(n.GetOr(0), true)
      case StoreFailure => Insertion(0, true)
  }

  /**
   * A reply a store can give to an unordered insert of `n` documents: every id
   * on success, and at most `n` insertions after a bulk-write error (all `n` when
   * only the write concern failed).
   */
  predicate Plausible(reply: StoreReply, n: nat) {
    match reply
    case Acknowledged(ids) => |ids| == n
    case BulkWriteFailure(k) => k.None? || k.value <= n
    case StoreFailure => true
  }

  /** `0 <= inserted <= len(batch)` whenever the store's reply is plausible for the batch. */
  lemma InsertedWithinBatch(docs: seq<Record>, reply: StoreReply)
    requires Plausible(reply, |docs|)
    ensures SafeInsertMany(docs, reply).count <= |docs|
    ensures reply.Acknowledged? && docs != [] ==> SafeInsertMany(docs, reply).count == |docs|
  {
  }

  /**
   * The count, case by case: nothing for an empty batch or an unexpected error,
   * every id on success, `nInserted` (default 0) after a bulk-write error.
   */
  lemma InsertCount(docs: seq<Record>, reply: StoreReply)
    ensures docs == [] ==> SafeInsertMany(docs, reply) == Insertion(0, false)
    ensures docs != [] && reply.Acknowledged? ==> SafeInsertMany(docs, reply).count == |reply.insertedIds|
    ensures docs != [] && reply.BulkWriteFailure? ==> SafeInsertMany(docs, reply).count == reply.nInserted.GetOr(0)
    ensures docs != [] && reply.StoreFailure? ==> SafeInsertMany(docs, reply).count == 0
  {
  }
}
