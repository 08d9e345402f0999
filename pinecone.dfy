/**
 * lib/pinecone.js: the lazily built Pinecone client, and the vector index the
 * routes write to, modelled as a map from record id to record.
 */
module Pinecone {
  import opened Wrappers
  import opened Config
  import opened Records

  const NotConfigured := "Pinecone API key not configured. Please set PINECONE_API_KEY environment variable."

  /** A client object; it keeps the key it was built with. */
  class PineconeClient {
    const apiKey: string

    constructor (apiKey: string)
      ensures this.apiKey == apiKey
    {
      this.apiKey := apiKey;
    }
  }

  /** The module-level `pinecone` variable of lib/pinecone.js. */
  class ClientCache {
    var pinecone: PineconeClient?

    constructor ()
      ensures pinecone == null
    {
      pinecone := null;
    }

    /** `getPineconeClient()`. The key is checked on every call, before the
        cache; the first call with a key builds the client, later calls with a
        key return that same client whatever the key is then. */
    method GetPineconeClient(env: Env) returns (r: Result<PineconeClient, string>)
      modifies this
      ensures !Truthy(env.pineconeApiKey) ==> r == Failure(NotConfigured) && unchanged(this)
      ensures Truthy(env.pineconeApiKey) && old(pinecone) != null ==>
        r == Success(old(pinecone)) && pinecone == old(pinecone)
      ensures Truthy(env.pineconeApiKey) && old(pinecone) == null ==>
        r.Success? && fresh(r.value) && r.value.apiKey == env.pineconeApiKey.value && pinecone == r.value
    {
      if !Truthy(env.pineconeApiKey) {
        return Failure(NotConfigured);
      }
      if pinecone == null {
        pinecone := new PineconeClient(env.pineconeApiKey.value);
      }
      r := Success(pinecone);
    }
  }

  /** What a route that has called `getPineconeClient()` leaves in the
      cache: nothing changes without a key, a cached client stays, and an
      empty cache gets a new client built with the key. */
  twostate predicate ClientCached(cache: ClientCache, env: Env)
    reads cache
  {
    (!Truthy(env.pineconeApiKey) ==> unchanged(cache)) &&
    (Truthy(env.pineconeApiKey) && old(cache.pinecone) != null ==> cache.pinecone == old(cache.pinecone)) &&
    (Truthy(env.pineconeApiKey) && old(cache.pinecone) == null ==>
      cache.pinecone != null && fresh(cache.pinecone) && cache.pinecone.apiKey == env.pineconeApiKey.value)
  }

  // ---------------------------------------------------------------- the index

  /** The ids of a batch. */
  function Ids(vectors: seq<VectorRecord>): set<string> {
    set j | 0 <= j < |vectors| :: vectors[j].id
  }

  /** One batch as a map: each id to the last record of the batch with that id. */
  function Batch(vectors: seq<VectorRecord>): map<string, VectorRecord> {
    if vectors == [] then map[]
    else
      var n := |vectors| - 1;
      Batch(vectors[..n])[vectors[n].id := vectors[n]]
  }

  /** A batch holds exactly the batch's ids. */
  lemma {:induction false} BatchKeys(vectors: seq<VectorRecord>)
    ensures Batch(vectors).Keys == Ids(vectors)
  {
    if vectors != [] {
      var n := |vectors| - 1;
      BatchKeys(vectors[..n]);
      forall id | id in Ids(vectors) ensures id in Ids(vectors[..n]) + {vectors[n].id} {
        var j :| 0 <= j < |vectors| && vectors[j].id == id;
        if j < n { assert vectors[..n][j] == vectors[j]; }
      }
      forall id | id in Ids(vectors[..n]) ensures id in Ids(vectors) {
        var j :| 0 <= j < n && vectors[..n][j].id == id;
        assert vectors[j].id == id;
      }
    }
  }

  /** The store after an upsert of `vectors`: the batch's records replace those
      with the same ids, every other record stays. */
  function Upserted(store: map<string, VectorRecord>, vectors: seq<VectorRecord>): map<string, VectorRecord> {
    store + Batch(vectors)
  }

  /** A batch with distinct ids stores each record under its own id. */
  lemma {:induction false} BatchDistinct(vectors: seq<VectorRecord>)
    requires forall j, k :: 0 <= j < k < |vectors| ==> vectors[j].id != vectors[k].id
    ensures forall j :: 0 <= j < |vectors| ==>
      vectors[j].id in Batch(vectors) && Batch(vectors)[vectors[j].id] == vectors[j]
  {
    if vectors != [] {
      var n := |vectors| - 1;
      var init := vectors[..n];
      assert forall j, k :: 0 <= j < k < n ==> init[j].id != init[k].id;
      BatchDistinct(init);
      forall j | 0 <= j < |vectors|
        ensures vectors[j].id in Batch(vectors) && Batch(vectors)[vectors[j].id] == vectors[j]
      {
        if j < n {
          assert init[j] == vectors[j];
          assert vectors[j].id != vectors[n].id;
        }
      }
    }
  }

  /** What an upsert of a batch with distinct ids leaves: every record of the
      batch under its id, every other id as it was. */
  lemma UpsertedContents(store: map<string, VectorRecord>, vectors: seq<VectorRecord>)
    requires forall j, k :: 0 <= j < k < |vectors| ==> vectors[j].id != vectors[k].id
    ensures var after := Upserted(store, vectors);
      after.Keys == store.Keys + Ids(vectors) &&
      (forall j :: 0 <= j < |vectors| ==> after[vectors[j].id] == vectors[j]) &&
      (forall id :: id in store && id !in Ids(vectors) ==> after[id] == store[id])
  {
    BatchKeys(vectors);
    BatchDistinct(vectors);
  }

  /** Upserting the same batch again changes nothing: re-ingesting a document
      overwrites its records in place. */
  lemma UpsertIdempotent(store: map<string, VectorRecord>, vectors: seq<VectorRecord>)
    ensures Upserted(Upserted(store, vectors), vectors) == Upserted(store, vectors)
  {
    var b := Batch(vectors);
    var once := store + b;
    assert once + b == once by {
      forall id | id in once + b ensures (once + b)[id] == once[id] {
      }
    }
  }

  /** `client.Index(name)`: the records stored, and how many upsert calls were made. */
  class VectorIndex {
    var records: map<string, VectorRecord>
    var upserts: nat

    constructor (records: map<string, VectorRecord>)
      ensures this.records == records && upserts == 0
    {
      this.records := records;
      upserts := 0;
    }

    /** `index.upsert(vectors)`. */
    method Upsert(vectors: seq<VectorRecord>)
      modifies this
      ensures records == Upserted(old(records), vectors) && upserts == old(upserts) + 1
    {
      records := Upserted(records, vectors);
      upserts := upserts + 1;
    }
  }
}
