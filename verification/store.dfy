/** The parent store of project/db/parent_store_manager.py: one JSON file per
    parent id, modelled as a finite map from id to the object written into
    that file. */
module ParentStore {
  import opened Strings
  import opened Documents

  /** The JSON object `save` writes: {"page_content": ..., "metadata": ...}. */
  datatype ParentRecord = ParentRecord(pageContent: string, metadata: map<string, string>)

  const PageContentKey: string := "page_content"
  const MetadataKey: string := "metadata"

  /** The top-level keys of a stored record. */
  function RecordKeys(r: ParentRecord): set<string> {
    {PageContentKey, MetadataKey}
  }

  /** `record.get(key)` for a top-level key whose value is a string: only
      "page_content" is. */
  function StringField(r: ParentRecord, key: string): (v: Option<string>)
    ensures v.Some? <==> key == PageContentKey
    ensures v.Some? ==> v.value == r.pageContent
  {
    if key == PageContentKey then Some(r.pageContent) else None
  }

  /** The store directory: parent id -> record of the file "{parent_id}.json". */
  type Store = map<string, ParentRecord>

  const EmptyStore: Store := map[]

  /** `save`: writes (and on a second save, overwrites) one record. */
  function Save(store: Store, parentId: string, content: string, metadata: map<string, string>): (s: Store)
    ensures s.Keys == store.Keys + {parentId}
  {
    store[parentId := ParentRecord(content, metadata)]
  }

  /** The ids of a list of (id, document) pairs. */
  function Ids(parents: seq<(string, Document)>): set<string>
    decreases |parents|
  {
    if |parents| == 0 then {} else {parents[0].0} + Ids(parents[1..])
  }

  /** `save_many`: one `save` per (id, document) pair, in list order. */
  function SaveMany(store: Store, parents: seq<(string, Document)>): (s: Store)
    ensures s.Keys == store.Keys + Ids(parents)
    decreases |parents|
  {
    if |parents| == 0 then store
    else SaveMany(Save(store, parents[0].0, parents[0].1.pageContent, parents[0].1.metadata), parents[1..])
  }

  /** `load`: the record saved under the id, or None when its file does not
      exist. */
  function Load(store: Store, parentId: string): (r: Option<ParentRecord>)
    ensures r.Some? <==> parentId in store
    ensures r.Some? ==> r.value == store[parentId]
  {
    if parentId in store then Some(store[parentId]) else None
  }

  /** `load_content`: an alias of `load`. */
  function LoadContent(store: Store, parentId: string): (r: Option<ParentRecord>)
    ensures r == Load(store, parentId)
    ensures r.Some? <==> parentId in store
  {
    Load(store, parentId)
  }

  /** After `save(id, c, m)`, `load(id)` returns {"page_content": c,
      "metadata": m}, and every other id loads what it loaded before. */
  lemma LoadAfterSave(store: Store, parentId: string, content: string, metadata: map<string, string>, other: string)
    ensures Load(Save(store, parentId, content, metadata), parentId) == Some(ParentRecord(content, metadata))
    ensures other != parentId ==> Load(Save(store, parentId, content, metadata), other) == Load(store, other)
  {
  }

  /** Saving an id twice keeps only the later record. */
  lemma SaveOverwrites(store: Store, parentId: string, c1: string, m1: map<string, string>, c2: string, m2: map<string, string>)
    ensures Save(Save(store, parentId, c1, m1), parentId, c2, m2) == Save(store, parentId, c2, m2)
  {
  }

  /** The position of the last pair with this id, if any. */
  function LastIndexOf(parents: seq<(string, Document)>, parentId: string): (r: Option<nat>)
    ensures r.Some? ==> r.value < |parents| && parents[r.value].0 == parentId
    ensures r.Some? ==> forall k :: r.value < k < |parents| ==> parents[k].0 != parentId
    ensures r.None? ==> forall k :: 0 <= k < |parents| ==> parents[k].0 != parentId
    decreases |parents|
  {
    if |parents| == 0 then None
    else if parents[|parents| - 1].0 == parentId then Some(|parents| - 1)
    else LastIndexOf(parents[..|parents| - 1], parentId)
  }

  /** The record `save` writes for a document. */
  function RecordOf(d: Document): ParentRecord {
    ParentRecord(d.pageContent, d.metadata)
  }

  /** After `save_many(pairs)`, an id loads the document of its last
      occurrence in the list; an id absent from the list loads what it loaded
      before. */
  lemma {:induction false} SaveManyLastWins(store: Store, parents: seq<(string, Document)>, parentId: string)
    ensures Load(SaveMany(store, parents), parentId) ==
      match LastIndexOf(parents, parentId)
      case Some(k) => Some(RecordOf(parents[k].1))
      case None => Load(store, parentId)
    decreases |parents|
  {
    if |parents| > 0 {
      var p := parents[0];
      var s1 := Save(store, p.0, p.1.pageContent, p.1.metadata);
      SaveManyLastWins(s1, parents[1..], parentId);
      var tail := LastIndexOf(parents[1..], parentId);
      var whole := LastIndexOf(parents, parentId);
      if tail.Some? {
        assert parents[tail.value + 1] == parents[1..][tail.value];
        assert whole == Some(tail.value + 1);
      } else if p.0 == parentId {
        assert whole == Some(0);
      } else {
        assert whole.None?;
      }
    }
  }

  /** An id that was never saved loads nothing. */
  lemma LoadNeverSaved(parents: seq<(string, Document)>, parentId: string)
    requires forall k :: 0 <= k < |parents| ==> parents[k].0 != parentId
    ensures Load(SaveMany(EmptyStore, parents), parentId) == None
  {
    SaveManyLastWins(EmptyStore, parents, parentId);
  }

  /** After `save_many(pairs)` on an empty store, `load_content` finds exactly
      the ids of the pairs, each with the document of its last occurrence. */
  lemma LoadContentAfterSaveMany(parents: seq<(string, Document)>, parentId: string)
    ensures LoadContent(SaveMany(EmptyStore, parents), parentId).Some? <==>
      exists k :: 0 <= k < |parents| && parents[k].0 == parentId
    ensures match LastIndexOf(parents, parentId)
      case Some(k) => LoadContent(SaveMany(EmptyStore, parents), parentId) == Some(RecordOf(parents[k].1))
      case None => LoadContent(SaveMany(EmptyStore, parents), parentId) == None
  {
    SaveManyLastWins(EmptyStore, parents, parentId);
  }

  /** A record loaded after `save_many` on an empty store is the record of
      some pair saved under that id. */
  lemma LoadedIndex(parents: seq<(string, Document)>, parentId: string) returns (k: nat)
    requires Load(SaveMany(EmptyStore, parents), parentId).Some?
    ensures k < |parents| && parents[k].0 == parentId
    ensures Load(SaveMany(EmptyStore, parents), parentId).value == RecordOf(parents[k].1)
  {
    SaveManyLastWins(EmptyStore, parents, parentId);
    k := LastIndexOf(parents, parentId).value;
  }

  /** Every record the store holds after `save_many` has "page_content" as its
      only string field, holding the text of the pair k saved under that id;
      there is no top-level "parent_id" or "content" string. */
  lemma StoredRecordFields(parents: seq<(string, Document)>, parentId: string) returns (k: nat)
    requires Load(SaveMany(EmptyStore, parents), parentId).Some?
    ensures var r := Load(SaveMany(EmptyStore, parents), parentId).value;
      && StringField(r, "parent_id") == None
      && StringField(r, "content") == None
      && k < |parents| && parents[k].0 == parentId
      && StringField(r, PageContentKey) == Some(parents[k].1.pageContent)
  {
    k := LoadedIndex(parents, parentId);
  }

  /** With pairwise distinct ids, `save_many` makes every pair load back its
      own document. */
  lemma SaveManyDistinct(store: Store, parents: seq<(string, Document)>, k: nat)
    requires k < |parents|
    requires forall a, b :: 0 <= a < b < |parents| ==> parents[a].0 != parents[b].0
    ensures Load(SaveMany(store, parents), parents[k].0) == Some(RecordOf(parents[k].1))
  {
    SaveManyLastWins(store, parents, parents[k].0);
  }
}
