/**
 What the uploader sees of the vector store: the pages of a file listing,
 the mapping `file_name -> {file_id, hash}` that `get_existing_files` folds
 them into, and an in-memory stand-in for the files and vector-store
 endpoints of the API client that `upload_file` calls.
 */
module RemoteIndex {

  /** Identifiers the API hands out for uploaded files; the model only compares them. */
  type FileId = nat

  /** The `attributes` of a vector-store file; the uploader writes `hash`, `file_name` and `url`. */
  type Attributes = map<string, string>

  /** One entry of a listing page: `file.id` and `file.attributes`. */
  datatype ListedFile = ListedFile(id: FileId, attributes: Attributes)

  /** One response of `vector_stores.files.list`: `data` and `has_more`. */
  datatype Page = Page(data: seq<ListedFile>, hasMore: bool)

  /** A value of the `existing_files` mapping: `{"file_id": ..., "hash": ...}`. */
  datatype IndexEntry = IndexEntry(fileId: FileId, hash: string)

  /** `files.data[-1]` on an empty page that still claims `has_more`. */
  datatype ListError = IndexError

  datatype Result<T, E> = Success(value: T) | Failure(error: E)

  /** `attributes.get(key)` is truthy: present and not the empty string. */
  predicate Truthy(attributes: Attributes, key: string) {
    key in attributes && attributes[key] != ""
  }

  /** The entry carries both a truthy `hash` and a truthy `file_name`. */
  predicate Managed(f: ListedFile) {
    Truthy(f.attributes, "hash") && Truthy(f.attributes, "file_name")
  }

  /** The entry is managed and carries the file name `name`. */
  predicate ManagedAs(f: ListedFile, name: string) {
    Managed(f) && f.attributes["file_name"] == name
  }

  /** Some entry of `files` is managed under `name`. */
  predicate Lists(files: seq<ListedFile>, name: string) {
    exists i :: 0 <= i < |files| && ManagedAs(files[i], name)
  }

  /** The body of the inner loop of `get_existing_files`, for one listed entry. */
  function Record(mapping: map<string, IndexEntry>, f: ListedFile): map<string, IndexEntry> {
    if Managed(f) then mapping[f.attributes["file_name"] := IndexEntry(f.id, f.attributes["hash"])]
    else mapping
  }

  /** The mapping built from `files`, read in order. */
  function Collect(files: seq<ListedFile>): map<string, IndexEntry> {
    if files == [] then map[] else Record(Collect(files[..|files| - 1]), files[|files| - 1])
  }

  /** The entries of `pages`, page after page. */
  function Flatten(pages: seq<Page>): seq<ListedFile> {
    if pages == [] then [] else Flatten(pages[..|pages| - 1]) + pages[|pages| - 1].data
  }

  /** The responses to the successive list requests: every page but the last says there is more. */
  predicate WellFormedListing(pages: seq<Page>) {
    && |pages| > 0
    && !pages[|pages| - 1].hasMore
    && forall i :: 0 <= i < |pages| - 1 ==> pages[i].hasMore
  }

  /** A page that says there is more but holds no entry, so that it has no last id to continue from. */
  predicate EmptyPageBeforeEnd(pages: seq<Page>) {
    exists i :: 0 <= i < |pages| - 1 && pages[i].data == []
  }

  /** One more entry of a page is folded into the mapping. */
  lemma CollectStep(before: seq<ListedFile>, data: seq<ListedFile>, j: nat)
    requires j < |data|
    ensures Collect(before + data[..j + 1]) == Record(Collect(before + data[..j]), data[j])
  {
    assert (before + data[..j + 1])[..|before| + j] == before + data[..j];
  }

  /** A whole page has been folded into the mapping. */
  lemma FlattenStep(pages: seq<Page>, p: nat)
    requires p < |pages|
    ensures Flatten(pages[..p]) + pages[p].data[..|pages[p].data|] == Flatten(pages[..p + 1])
  {
    assert pages[..p + 1][..p] == pages[..p];
    assert pages[p].data[..|pages[p].data|] == pages[p].data;
  }

  /** A name is in the mapping exactly when some listed entry is managed under it. */
  lemma {:induction false} CollectKeys(files: seq<ListedFile>, name: string)
    ensures name in Collect(files) <==> Lists(files, name)
  {
    if files != [] {
      var n := |files| - 1;
      var init := files[..n];
      CollectKeys(init, name);
      if Lists(files, name) && !ManagedAs(files[n], name) {
        var i :| 0 <= i < |files| && ManagedAs(files[i], name);
        assert init[i] == files[i];
      }
      if Lists(init, name) {
        var i :| 0 <= i < n && ManagedAs(init[i], name);
        assert init[i] == files[i];
      }
    }
  }

  /** For a name listed several times, the last managed entry under that name wins. */
  lemma {:induction false} CollectLastWins(files: seq<ListedFile>, i: nat)
    requires i < |files| && Managed(files[i])
    requires forall j :: i < j < |files| ==> !ManagedAs(files[j], files[i].attributes["file_name"])
    ensures files[i].attributes["file_name"] in Collect(files)
    ensures Collect(files)[files[i].attributes["file_name"]]
            == IndexEntry(files[i].id, files[i].attributes["hash"])
  {
    var n := |files| - 1;
    if i < n {
      var init := files[..n];
      assert init[i] == files[i];
      forall j | i < j < |init| ensures !ManagedAs(init[j], init[i].attributes["file_name"]) {
        assert init[j] == files[j];
      }
      CollectLastWins(init, i);
    }
  }

  /** Every hash the mapping holds is truthy, as `get_existing_files` only keeps such entries. */
  lemma {:induction false} CollectHashesTruthy(files: seq<ListedFile>)
    ensures forall name :: name in Collect(files) ==> Collect(files)[name].hash != ""
  {
    if files != [] {
      CollectHashesTruthy(files[..|files| - 1]);
    }
  }

  /** Each listed entry is attached in `vectorStore` with the attributes the listing shows. */
  predicate ListingOf(files: seq<ListedFile>, vectorStore: map<FileId, Attributes>) {
    forall i :: 0 <= i < |files| ==>
      files[i].id in vectorStore && vectorStore[files[i].id] == files[i].attributes
  }

  /** Every name of `entries` points at a file attached in `vectorStore` under that name with that hash. */
  predicate Mirrors(entries: map<string, IndexEntry>, vectorStore: map<FileId, Attributes>) {
    forall name :: name in entries ==>
      && entries[name].fileId in vectorStore
      && "file_name" in vectorStore[entries[name].fileId]
      && vectorStore[entries[name].fileId]["file_name"] == name
      && "hash" in vectorStore[entries[name].fileId]
      && vectorStore[entries[name].fileId]["hash"] == entries[name].hash
  }

  /** The mapping built from a listing of a vector store describes that store. */
  lemma {:induction false} ListingMirrors(files: seq<ListedFile>, vectorStore: map<FileId, Attributes>)
    requires ListingOf(files, vectorStore)
    ensures Mirrors(Collect(files), vectorStore)
  {
    if files != [] {
      var n := |files| - 1;
      var init := files[..n];
      assert ListingOf(init, vectorStore) by {
        forall i | 0 <= i < |init| ensures init[i].id in vectorStore && vectorStore[init[i].id] == init[i].attributes {
          assert init[i] == files[i];
        }
      }
      ListingMirrors(init, vectorStore);
    }
  }

  /** A file uploaded through `files.create`. */
  datatype StoredFile = StoredFile(name: string, content: string)

  /** One mutating call on the API client, in the order it was made. */
  datatype Call =
    | Detached(id: FileId)                          // vector_stores.files.delete
    | Deleted(id: FileId)                           // files.delete
    | Created(id: FileId, name: string)             // files.create
    | Attached(id: FileId, attributes: Attributes)  // vector_stores.files.create

  /**
   The files endpoint and the vector store, as the uploader uses them. `files`
   holds uploaded files, `vectorStore` the files attached to the store with their
   attributes, and `calls` every mutating call so far. New ids are drawn from
   `issued`, above every id already in use.
   */
  class RemoteStore {
    var files: map<FileId, StoredFile>
    var vectorStore: map<FileId, Attributes>
    var issued: nat
    ghost var calls: seq<Call>

    ghost predicate Valid()
      reads this
    {
      && (forall id :: id in files ==> id < issued)
      && (forall id :: id in vectorStore ==> id < issued)
    }

    /** A client of an account that already holds `files`, with `vectorStore` attached; no id at or above `issued` is in use. */
    constructor (files: map<FileId, StoredFile>, vectorStore: map<FileId, Attributes>, issued: nat)
      requires forall id :: id in files ==> id < issued
      requires forall id :: id in vectorStore ==> id < issued
      ensures Valid()
      ensures this.files == files && this.vectorStore == vectorStore && this.issued == issued && calls == []
    {
      this.files, this.vectorStore, this.issued := files, vectorStore, issued;
      calls := [];
    }

    /** `vector_stores.files.delete(file_id=id)`: the file leaves the vector store. */
    method DetachFile(id: FileId)
      requires Valid()
      modifies this
      ensures Valid()
      ensures vectorStore == old(vectorStore) - {id} && files == old(files) && issued == old(issued)
      ensures calls == old(calls) + [Detached(id)]
    {
      vectorStore := vectorStore - {id};
      calls := calls + [Detached(id)];
    }

    /** `files.delete(id)`: the uploaded file is removed. */
    method DeleteFile(id: FileId)
      requires Valid()
      modifies this
      ensures Valid()
      ensures files == old(files) - {id} && vectorStore == old(vectorStore) && issued == old(issued)
      ensures calls == old(calls) + [Deleted(id)]
    {
      files := files - {id};
      calls := calls + [Deleted(id)];
    }

    /** `files.create(...)`: a new file under an id not used before. */
    method CreateFile(name: string, content: string) returns (id: FileId)
      requires Valid()
      modifies this
      ensures Valid()
      ensures id !in old(files) && id !in old(vectorStore) && old(issued) <= id < issued
      ensures files == old(files)[id := StoredFile(name, content)] && vectorStore == old(vectorStore)
      ensures calls == old(calls) + [Created(id, name)]
    {
      id := issued;
      issued := issued + 1;
      files := files[id := StoredFile(name, content)];
      calls := calls + [Created(id, name)];
    }

    /** `vector_stores.files.create(file_id=id, attributes=...)`: an uploaded file joins the vector store. */
    method AttachFile(id: FileId, attributes: Attributes)
      requires Valid() && id in files
      modifies this
      ensures Valid()
      ensures vectorStore == old(vectorStore)[id := attributes] && files == old(files) && issued == old(issued)
      ensures calls == old(calls) + [Attached(id, attributes)]
    {
      vectorStore := vectorStore[id := attributes];
      calls := calls + [Attached(id, attributes)];
    }
  }
}
