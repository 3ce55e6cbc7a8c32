/**
 The `Uploader` of upload.py: it reads the vector store's listing into a
 mapping `file_name -> {file_id, hash}` and then, article by article, skips
 an unchanged file, replaces a changed one (delete first, then create) or
 adds a new one, counting each article under exactly one of three counters.
 */
module Upload {
  import opened RemoteIndex
  import opened Chunking

  /** `hashlib.md5(...).hexdigest()` always has 32 hexadecimal digits. */
  type Md5Hex = s: string | |s| == 32 witness "00000000000000000000000000000000"

  /** An article as `upload_file` reads it: `slug`, `markdown` and `url`. */
  datatype Article = Article(slug: string, markdown: string, url: string)

  /** The name the article is uploaded under: `f"{slug}.md"`. */
  function FileName(article: Article): string {
    article.slug + ".md"
  }

  /** The attributes `upload_file` attaches to a new file. */
  function UploadAttributes(hash: string, name: string, url: string): Attributes {
    map["hash" := hash, "file_name" := name, "url" := url]
  }

  /** How `upload_file` treats an article with file name `name` and content hash `hash`. */
  datatype Outcome = Skipped | Updated(oldId: FileId) | Added

  function Classify(entries: map<string, IndexEntry>, name: string, hash: string): (o: Outcome)
    ensures o == Skipped <==> name in entries && entries[name].hash == hash
    ensures o.Updated? <==> name in entries && entries[name].hash != hash
    ensures o.Updated? ==> o.oldId == entries[name].fileId
    ensures o == Added <==> name !in entries
  {
    if name in entries then
      if entries[name].hash == hash then Skipped else Updated(entries[name].fileId)
    else Added
  }

  /** The calls that retire the old file before a replacement is created. */
  function Retirement(o: Outcome): seq<Call> {
    if o.Updated? then [Detached(o.oldId), Deleted(o.oldId)] else []
  }

  /** `m` without the file an update replaces. */
  function Retire<V>(m: map<FileId, V>, o: Outcome): (r: map<FileId, V>)
    ensures o.Updated? ==> r.Keys == m.Keys - {o.oldId}
    ensures !o.Updated? ==> r == m
    ensures forall id :: id in r ==> id in m && r[id] == m[id]
  {
    if o.Updated? then m - {o.oldId} else m
  }

  /** Each file name mapped to the hash of the last article uploaded under it. */
  function Targets(articles: seq<Article>, computeHash: string -> Md5Hex): map<string, string> {
    if articles == [] then map[]
    else
      var last := articles[|articles| - 1];
      Targets(articles[..|articles| - 1], computeHash)[FileName(last) := computeHash(last.markdown)]
  }

  /** A file name is targeted exactly when some article has it. */
  lemma {:induction false} TargetsKeys(articles: seq<Article>, computeHash: string -> Md5Hex, name: string)
    ensures name in Targets(articles, computeHash) <==> exists i :: 0 <= i < |articles| && FileName(articles[i]) == name
  {
    if articles != [] {
      var n := |articles| - 1;
      var init := articles[..n];
      TargetsKeys(init, computeHash, name);
      if exists i :: 0 <= i < |articles| && FileName(articles[i]) == name {
        var i :| 0 <= i < |articles| && FileName(articles[i]) == name;
        if i < n {
          assert init[i] == articles[i];
        }
      }
      if exists i :: 0 <= i < n && FileName(init[i]) == name {
        var i :| 0 <= i < n && FileName(init[i]) == name;
        assert init[i] == articles[i];
      }
    }
  }

  /** The target hash of a file name is that of the last article with that name. */
  lemma {:induction false} TargetsLastWins(articles: seq<Article>, computeHash: string -> Md5Hex, i: nat)
    requires i < |articles|
    requires forall j :: i < j < |articles| ==> FileName(articles[j]) != FileName(articles[i])
    ensures FileName(articles[i]) in Targets(articles, computeHash)
    ensures Targets(articles, computeHash)[FileName(articles[i])] == computeHash(articles[i].markdown)
  {
    var n := |articles| - 1;
    if i < n {
      var init := articles[..n];
      assert init[i] == articles[i];
      forall j | i < j < |init| ensures FileName(init[j]) != FileName(init[i]) {
        assert init[j] == articles[j];
      }
      TargetsLastWins(init, computeHash, i);
    }
  }

  /** The mapping agrees with the target hashes. */
  predicate Reaches(entries: map<string, IndexEntry>, targets: map<string, string>) {
    forall name :: name in targets ==> name in entries && entries[name].hash == targets[name]
  }

  /**
   Processing the articles again against a mapping that has reached their
   targets skips every article that is the last one under its file name
   (`RerunSkipsAll` counts a whole run of such articles).
   */
  lemma ReprocessingSkips(entries: map<string, IndexEntry>, articles: seq<Article>, computeHash: string -> Md5Hex, i: nat)
    requires Reaches(entries, Targets(articles, computeHash))
    requires i < |articles|
    requires forall j :: i < j < |articles| ==> FileName(articles[j]) != FileName(articles[i])
    ensures Classify(entries, FileName(articles[i]), computeHash(articles[i].markdown)) == Skipped
  {
    TargetsLastWins(articles, computeHash, i);
  }

  /**
   `after` is `before` with `name` brought up to `hash`: the name is present
   with that hash, and every other name is as it was.
   */
  ghost predicate UpToDate(before: map<string, IndexEntry>, after: map<string, IndexEntry>, name: string, hash: string) {
    && name in after && after[name].hash == hash
    && forall other :: other != name ==>
         (other in after <==> other in before) && (other in after ==> after[other] == before[other])
  }

  /**
   `entries` has reached `targets`, and every name outside `targets` is as it
   was in `initial`.
   */
  ghost predicate Settled(entries: map<string, IndexEntry>, initial: map<string, IndexEntry>, targets: map<string, string>) {
    && Reaches(entries, targets)
    && forall name :: name !in targets ==>
         (name in entries <==> name in initial) && (name in entries ==> entries[name] == initial[name])
  }

  lemma TargetsStep(articles: seq<Article>, computeHash: string -> Md5Hex, i: nat)
    requires i < |articles|
    ensures Targets(articles[..i + 1], computeHash)
            == Targets(articles[..i], computeHash)[FileName(articles[i]) := computeHash(articles[i].markdown)]
  {
    assert articles[..i + 1][..i] == articles[..i];
  }

  /** Bringing article `i` up to date extends what has been settled to the first `i + 1` articles. */
  lemma SettledStep(before: map<string, IndexEntry>, after: map<string, IndexEntry>, initial: map<string, IndexEntry>,
                    articles: seq<Article>, i: nat, computeHash: string -> Md5Hex)
    requires i < |articles|
    requires Settled(before, initial, Targets(articles[..i], computeHash))
    requires UpToDate(before, after, FileName(articles[i]), computeHash(articles[i].markdown))
    ensures Settled(after, initial, Targets(articles[..i + 1], computeHash))
  {
    TargetsStep(articles, computeHash, i);
  }

  /** The three counters of the `Uploader`: `added_count`, `updated_count` and `skipped_count`. */
  datatype Tally = Tally(added: nat, updated: nat, skipped: nat) {
    function Plus(other: Tally): Tally {
      Tally(added + other.added, updated + other.updated, skipped + other.skipped)
    }

    function Total(): nat {
      added + updated + skipped
    }
  }

  /** The hash each name carries once the targets are reached: the target's, or else the listed one. */
  function Hashes(initial: map<string, IndexEntry>, targets: map<string, string>): (h: map<string, string>)
    ensures h.Keys == initial.Keys + targets.Keys
  {
    map name | name in initial.Keys + targets.Keys :: if name in targets then targets[name] else initial[name].hash
  }

  /** The counter one more article moves, judged against the hashes known so far. */
  function Tick(t: Tally, known: map<string, string>, name: string, hash: string): Tally {
    if name !in known then t.(added := t.added + 1)
    else if known[name] == hash then t.(skipped := t.skipped + 1)
    else t.(updated := t.updated + 1)
  }

  /**
   How many articles `run` counts under each counter when it starts from the
   mapping `initial`: each article is judged against the listing overlaid with
   the articles before it.
   */
  function Count(initial: map<string, IndexEntry>, articles: seq<Article>, computeHash: string -> Md5Hex): Tally {
    if articles == [] then Tally(0, 0, 0)
    else
      var n := |articles| - 1;
      Tick(Count(initial, articles[..n], computeHash), Hashes(initial, Targets(articles[..n], computeHash)),
           FileName(articles[n]), computeHash(articles[n].markdown))
  }

  /** Every article is counted exactly once. */
  lemma {:induction false} CountTotal(initial: map<string, IndexEntry>, articles: seq<Article>, computeHash: string -> Md5Hex)
    ensures Count(initial, articles, computeHash).Total() == |articles|
  {
    if articles != [] {
      CountTotal(initial, articles[..|articles| - 1], computeHash);
    }
  }

  lemma CountStep(initial: map<string, IndexEntry>, articles: seq<Article>, computeHash: string -> Md5Hex, i: nat)
    requires i < |articles|
    ensures Count(initial, articles[..i + 1], computeHash)
            == Tick(Count(initial, articles[..i], computeHash), Hashes(initial, Targets(articles[..i], computeHash)),
                    FileName(articles[i]), computeHash(articles[i].markdown))
  {
    assert articles[..i + 1][..i] == articles[..i];
  }

  /** A settled mapping classifies an article the way the known hashes do. */
  lemma SettledClassifies(entries: map<string, IndexEntry>, initial: map<string, IndexEntry>,
                          targets: map<string, string>, name: string, hash: string, t: Tally)
    requires Settled(entries, initial, targets)
    ensures var o := Classify(entries, name, hash);
            Tick(t, Hashes(initial, targets), name, hash)
            == if o == Added then t.(added := t.added + 1)
               else if o == Skipped then t.(skipped := t.skipped + 1)
               else t.(updated := t.updated + 1)
  {
    var known := Hashes(initial, targets);
    assert name in entries <==> name in known;
    if name in entries {
      assert entries[name].hash == known[name];
    }
  }

  /** The counters after one upload, which moved the counter `Classify` picks, extend `Count` by that article. */
  lemma CountersStep(counters0: Tally, before: Tally, after: Tally, entries: map<string, IndexEntry>,
                     initial: map<string, IndexEntry>, targets: map<string, string>, name: string, hash: string,
                     o: Outcome, counted: Tally)
    requires Settled(entries, initial, targets)
    requires before == counters0.Plus(counted)
    requires o == Classify(entries, name, hash)
    requires && after.added == before.added + (if o == Added then 1 else 0)
             && after.updated == before.updated + (if o.Updated? then 1 else 0)
             && after.skipped == before.skipped + (if o == Skipped then 1 else 0)
    ensures after == counters0.Plus(Tick(counted, Hashes(initial, targets), name, hash))
  {
    SettledClassifies(entries, initial, targets, name, hash, counted);
  }

  /** No two articles share a file name. */
  predicate DistinctNames(articles: seq<Article>) {
    forall i, j :: 0 <= i < j < |articles| ==> FileName(articles[i]) != FileName(articles[j])
  }

  /**
   Run again over a listing that already holds every article's hash, with no
   two articles under one name, every article is a skip.
   */
  lemma RerunSkipsAll(initial: map<string, IndexEntry>, articles: seq<Article>, computeHash: string -> Md5Hex)
    requires Reaches(initial, Targets(articles, computeHash))
    requires DistinctNames(articles)
    ensures Count(initial, articles, computeHash) == Tally(0, 0, |articles|)
  {
    for k := 0 to |articles|
      invariant Count(initial, articles[..k], computeHash) == Tally(0, 0, k)
    {
      CountStep(initial, articles, computeHash, k);
      RerunSkipsNext(initial, articles, computeHash, k, Tally(0, 0, k));
    }
    assert articles[..|articles|] == articles;
  }

  /** In such a run, the article at `k` is judged a skip against what is known before it. */
  lemma RerunSkipsNext(initial: map<string, IndexEntry>, articles: seq<Article>, computeHash: string -> Md5Hex, k: nat, t: Tally)
    requires Reaches(initial, Targets(articles, computeHash))
    requires DistinctNames(articles)
    requires k < |articles|
    ensures Tick(t, Hashes(initial, Targets(articles[..k], computeHash)), FileName(articles[k]), computeHash(articles[k].markdown))
            == t.(skipped := t.skipped + 1)
  {
    var name := FileName(articles[k]);
    assert name !in Targets(articles[..k], computeHash) by {
      TargetsKeys(articles[..k], computeHash, name);
    }
    TargetsLastWins(articles, computeHash, k);
  }

  /** The article carries a listed name with a hash other than the listed one, so its upload replaces the listed file. */
  predicate Changes(initial: map<string, IndexEntry>, article: Article, computeHash: string -> Md5Hex) {
    FileName(article) in initial && initial[FileName(article)].hash != computeHash(article.markdown)
  }

  /** The listed file ids the articles replace. */
  function Replaced(initial: map<string, IndexEntry>, articles: seq<Article>, computeHash: string -> Md5Hex): set<FileId> {
    if articles == [] then {}
    else
      var n := |articles| - 1;
      var last := articles[n];
      Replaced(initial, articles[..n], computeHash)
        + if Changes(initial, last, computeHash) then {initial[FileName(last)].fileId} else {}
  }

  /** A listed id is replaced exactly when some article changes a name listed under it. */
  lemma {:induction false} ReplacedIds(initial: map<string, IndexEntry>, articles: seq<Article>, computeHash: string -> Md5Hex, id: FileId)
    ensures id in Replaced(initial, articles, computeHash) <==>
            exists i :: 0 <= i < |articles| && Changes(initial, articles[i], computeHash)
                        && initial[FileName(articles[i])].fileId == id
  {
    if articles != [] {
      var n := |articles| - 1;
      var init := articles[..n];
      ReplacedIds(initial, init, computeHash, id);
      if exists i :: 0 <= i < n && Changes(initial, init[i], computeHash) && initial[FileName(init[i])].fileId == id {
        var i :| 0 <= i < n && Changes(initial, init[i], computeHash) && initial[FileName(init[i])].fileId == id;
        assert init[i] == articles[i];
      }
      if exists i :: 0 <= i < |articles| && Changes(initial, articles[i], computeHash) && initial[FileName(articles[i])].fileId == id {
        var i :| 0 <= i < |articles| && Changes(initial, articles[i], computeHash) && initial[FileName(articles[i])].fileId == id;
        if i < n {
          assert init[i] == articles[i];
        }
      }
    }
  }

  lemma ReplacedStep(initial: map<string, IndexEntry>, articles: seq<Article>, computeHash: string -> Md5Hex, i: nat)
    requires i < |articles|
    ensures Replaced(initial, articles[..i + 1], computeHash)
            == Replaced(initial, articles[..i], computeHash)
               + if Changes(initial, articles[i], computeHash) then {initial[FileName(articles[i])].fileId} else {}
  {
    assert articles[..i + 1][..i] == articles[..i];
  }

  /**
   Every entry of `m0` is still in `m` with the same value, except the ids of
   `gone`, which are no longer in `m`.
   */
  ghost predicate KeptExcept<V>(m0: map<FileId, V>, m: map<FileId, V>, gone: set<FileId>) {
    forall id :: id in m0 ==>
      (id in gone ==> id !in m) && (id !in gone ==> id in m && m[id] == m0[id])
  }

  /**
   Where the entries come from during a run: each is the listed one or points
   at a file created during the run (an id at or above `issued0`), and a listed
   entry is gone only once its file has been replaced.
   */
  ghost predicate Origin(entries: map<string, IndexEntry>, initial: map<string, IndexEntry>, replaced: set<FileId>, issued0: nat) {
    && (forall name :: name in entries ==>
          (name in initial && entries[name] == initial[name]) || entries[name].fileId >= issued0)
    && (forall name :: name in initial ==>
          (name in entries && entries[name] == initial[name]) || initial[name].fileId in replaced)
  }

  /** One upload keeps `Origin` with the article's replacement added. */
  lemma OriginStep(before: map<string, IndexEntry>, after: map<string, IndexEntry>, initial: map<string, IndexEntry>,
                   replaced: set<FileId>, issued0: nat, article: Article, computeHash: string -> Md5Hex, id: FileId)
    requires Origin(before, initial, replaced, issued0)
    requires var o := Classify(before, FileName(article), computeHash(article.markdown));
             && (o == Skipped ==> after == before)
             && (o != Skipped ==> id >= issued0 && after == before[FileName(article) := IndexEntry(id, computeHash(article.markdown))])
    ensures Origin(after, initial, replaced + if Changes(initial, article, computeHash) then {initial[FileName(article)].fileId} else {}, issued0)
  {
  }

  /** One upload keeps the files of `m0` that are not replaced, and the replaced ones stay gone. */
  lemma KeptStep<V>(m0: map<FileId, V>, before: map<FileId, V>, after: map<FileId, V>, replaced: set<FileId>, added: set<FileId>,
                    o: Outcome, id: FileId, issued0: nat)
    requires forall k :: k in m0 ==> k < issued0
    requires KeptExcept(m0, before, replaced)
    requires o == Skipped ==> after == before
    requires o != Skipped ==> id >= issued0 && id in after && after == Retire(before, o)[id := after[id]]
    requires o.Updated? ==> o.oldId in replaced + added || o.oldId >= issued0
    requires forall k :: k in added && k !in replaced && k < issued0 ==> o.Updated? && o.oldId == k
    ensures KeptExcept(m0, after, replaced + added)
  {
  }

  /**
   The file an upload retires is a listed file the article replaces, or one
   created during the run; and a listed file the article replaces, if not
   replaced before, is the one it retires.
   */
  lemma RetiredStep(before: map<string, IndexEntry>, initial: map<string, IndexEntry>, replaced: set<FileId>, issued0: nat,
                    article: Article, computeHash: string -> Md5Hex, o: Outcome, added: set<FileId>)
    requires Origin(before, initial, replaced, issued0)
    requires o == Classify(before, FileName(article), computeHash(article.markdown))
    requires added == if Changes(initial, article, computeHash) then {initial[FileName(article)].fileId} else {}
    ensures o.Updated? ==> o.oldId in replaced + added || o.oldId >= issued0
    ensures forall k :: k in added && k !in replaced && k < issued0 ==> o.Updated? && o.oldId == k
  {
  }

  /** The mapping, the counters and the store as a run finds them. */
  datatype Snapshot = Snapshot(entries: map<string, IndexEntry>, counters: Tally, files: map<FileId, StoredFile>,
                               vectorStore: map<FileId, Attributes>, calls: seq<Call>, issued: nat)

  /** What one `upload_file` call does to the mapping, the counters and the store, as `UploadFile` states it. */
  ghost predicate Uploaded(b: Snapshot, a: Snapshot, article: Article, computeHash: string -> Md5Hex) {
    var name, hash := FileName(article), computeHash(article.markdown);
    var o := Classify(b.entries, name, hash);
    && a.counters.added == b.counters.added + (if o == Added then 1 else 0)
    && a.counters.updated == b.counters.updated + (if o.Updated? then 1 else 0)
    && a.counters.skipped == b.counters.skipped + (if o == Skipped then 1 else 0)
    && b.issued <= a.issued
    && (o == Skipped ==> a.entries == b.entries && a.files == b.files && a.vectorStore == b.vectorStore && a.calls == b.calls)
    && (o != Skipped ==>
          && name in a.entries
          && var id := a.entries[name].fileId;
          && b.issued <= id < a.issued && id in a.files && id in a.vectorStore
          && a.files[id] == StoredFile(name, article.markdown)
          && a.vectorStore[id] == UploadAttributes(hash, name, article.url)
          && a.entries == b.entries[name := IndexEntry(id, hash)]
          && a.calls == b.calls + Retirement(o) + [Created(id, name), Attached(id, UploadAttributes(hash, name, article.url))]
          && a.files == Retire(b.files, o)[id := a.files[id]]
          && a.vectorStore == Retire(b.vectorStore, o)[id := a.vectorStore[id]])
  }

  /**
   Part of the loop invariant of `run` after `i` articles of a run that
   started from `start`: the counters and the mapping are what those articles
   make of them, and while nothing was added or updated nothing was called.
   */
  ghost predicate Tallied(now: Snapshot, start: Snapshot, articles: seq<Article>, i: nat, computeHash: string -> Md5Hex)
    requires i <= |articles|
  {
    && now.counters == start.counters.Plus(Count(start.entries, articles[..i], computeHash))
    && Settled(now.entries, start.entries, Targets(articles[..i], computeHash))
    && (Count(start.entries, articles[..i], computeHash).added == 0
        && Count(start.entries, articles[..i], computeHash).updated == 0 ==>
          && now.entries == start.entries && now.files == start.files
          && now.vectorStore == start.vectorStore && now.calls == start.calls)
  }

  /**
   The other part: the files of `start` are still there unless the articles
   so far replaced them, and the mapping's entries are listed ones or new.
   */
  ghost predicate Framed(now: Snapshot, start: Snapshot, articles: seq<Article>, i: nat, computeHash: string -> Md5Hex)
    requires i <= |articles|
  {
    var replaced := Replaced(start.entries, articles[..i], computeHash);
    && (forall k :: k in start.files ==> k < start.issued)
    && (forall k :: k in start.vectorStore ==> k < start.issued)
    && start.issued <= now.issued
    && Origin(now.entries, start.entries, replaced, start.issued)
    && KeptExcept(start.files, now.files, replaced)
    && KeptExcept(start.vectorStore, now.vectorStore, replaced)
  }

  /** One more upload extends `Tallied` by one article. */
  lemma TalliedStep(b: Snapshot, a: Snapshot, start: Snapshot, articles: seq<Article>, i: nat, computeHash: string -> Md5Hex)
    requires i < |articles|
    requires Tallied(b, start, articles, i, computeHash)
    requires Uploaded(b, a, articles[i], computeHash)
    ensures Tallied(a, start, articles, i + 1, computeHash)
  {
    var initial := start.entries;
    var name, hash := FileName(articles[i]), computeHash(articles[i].markdown);
    var o := Classify(b.entries, name, hash);
    assert Settled(a.entries, initial, Targets(articles[..i + 1], computeHash)) by {
      assert UpToDate(b.entries, a.entries, name, hash);
      SettledStep(b.entries, a.entries, initial, articles, i, computeHash);
    }
    assert a.counters == start.counters.Plus(Count(initial, articles[..i + 1], computeHash)) by {
      CountStep(initial, articles, computeHash, i);
      CountersStep(start.counters, b.counters, a.counters, b.entries, initial, Targets(articles[..i], computeHash),
                   name, hash, o, Count(initial, articles[..i], computeHash));
    }
    var counted := Count(initial, articles[..i], computeHash);
    var counted' := Count(initial, articles[..i + 1], computeHash);
    if counted'.added == 0 && counted'.updated == 0 {
      assert counted.added == 0 && counted.updated == 0 && o == Skipped by {
        CountStep(initial, articles, computeHash, i);
        SettledClassifies(b.entries, initial, Targets(articles[..i], computeHash), name, hash, counted);
      }
    }
  }

  /** One more upload extends `Framed` by one article. */
  lemma FramedStep(b: Snapshot, a: Snapshot, start: Snapshot, articles: seq<Article>, i: nat, computeHash: string -> Md5Hex)
    requires i < |articles|
    requires Framed(b, start, articles, i, computeHash)
    requires Uploaded(b, a, articles[i], computeHash)
    ensures Framed(a, start, articles, i + 1, computeHash)
  {
    var initial := start.entries;
    var name, hash := FileName(articles[i]), computeHash(articles[i].markdown);
    var o := Classify(b.entries, name, hash);
    var id := if o == Skipped then 0 else a.entries[name].fileId;
    var replaced := Replaced(initial, articles[..i], computeHash);
    var added: set<FileId> := if Changes(initial, articles[i], computeHash) then {initial[name].fileId} else {};
    assert Replaced(initial, articles[..i + 1], computeHash) == replaced + added by {
      ReplacedStep(initial, articles, computeHash, i);
    }
    OriginStep(b.entries, a.entries, initial, replaced, start.issued, articles[i], computeHash, id);
    RetiredStep(b.entries, initial, replaced, start.issued, articles[i], computeHash, o, added);
    KeptStep(start.files, b.files, a.files, replaced, added, o, id, start.issued);
    KeptStep(start.vectorStore, b.vectorStore, a.vectorStore, replaced, added, o, id, start.issued);
  }

  /** The mapping and the store as `run` changes them, with the ids of the files created so far. */
  datatype Remote = Remote(entries: map<string, IndexEntry>, files: map<FileId, StoredFile>,
                           vectorStore: map<FileId, Attributes>, calls: seq<Call>, created: seq<FileId>)

  /** What `upload_file` does to them when `files.create` hands out `id`. */
  function UploadEffect(s: Remote, article: Article, computeHash: string -> Md5Hex, id: FileId): Remote {
    var name, hash := FileName(article), computeHash(article.markdown);
    var o := Classify(s.entries, name, hash);
    if o == Skipped then s
    else
      var attributes := UploadAttributes(hash, name, article.url);
      Remote(s.entries[name := IndexEntry(id, hash)],
             Retire(s.files, o)[id := StoredFile(name, article.markdown)],
             Retire(s.vectorStore, o)[id := attributes],
             s.calls + Retirement(o) + [Created(id, name), Attached(id, attributes)],
             s.created + [id])
  }

  /** `upload_file` on every article, in order; article `i` gets the id `ids[i]` if it creates a file. */
  function Replay(s: Remote, articles: seq<Article>, computeHash: string -> Md5Hex, ids: seq<FileId>): Remote
    requires |ids| == |articles|
  {
    if articles == [] then s
    else
      var n := |articles| - 1;
      UploadEffect(Replay(s, articles[..n], computeHash, ids[..n]), articles[n], computeHash, ids[n])
  }

  lemma ReplayStep(s: Remote, articles: seq<Article>, computeHash: string -> Md5Hex, ids: seq<FileId>, id: FileId)
    requires |ids| < |articles|
    ensures var i := |ids|;
            Replay(s, articles[..i + 1], computeHash, ids + [id])
            == UploadEffect(Replay(s, articles[..i], computeHash, ids), articles[i], computeHash, id)
  {
    var i := |ids|;
    assert articles[..i + 1][..i] == articles[..i];
    assert (ids + [id])[..i] == ids;
  }

  /** Strictly increasing: no id is created twice. */
  predicate Increasing(ids: seq<FileId>) {
    forall j, k :: 0 <= j < k < |ids| ==> ids[j] < ids[k]
  }

  /** The entry of `name` points at a created file, uploaded under `name` and attached under `name` and its hash. */
  ghost predicate BackedEntry(st: Remote, name: string)
    requires name in st.entries
  {
    var id := st.entries[name].fileId;
    && id in st.created
    && id in st.files && st.files[id].name == name
    && id in st.vectorStore
    && "file_name" in st.vectorStore[id] && st.vectorStore[id]["file_name"] == name
    && "hash" in st.vectorStore[id] && st.vectorStore[id]["hash"] == st.entries[name].hash
  }

  /**
   Every entry at or above `issued0` points at a file created during the run,
   uploaded under the entry's name and attached under its name and hash, and
   no other name points at that file.
   */
  ghost predicate Backed(st: Remote, issued0: nat) {
    && (forall name :: name in st.entries && st.entries[name].fileId >= issued0 ==> BackedEntry(st, name))
    && (forall n1, n2 :: n1 in st.entries && n2 in st.entries && n1 != n2 && st.entries[n1].fileId >= issued0 ==>
          st.entries[n1].fileId != st.entries[n2].fileId)
  }

  /** Putting a new entry under `name`, with a fresh id for its file, keeps `Backed`. */
  lemma BackedPut(st: Remote, st': Remote, name: string, hash: string, id: FileId, o: Outcome,
                  file: StoredFile, attributes: Attributes, issued0: nat)
    requires Backed(st, issued0)
    requires o.Updated? ==> name in st.entries && o.oldId == st.entries[name].fileId
    requires st'.entries == st.entries[name := IndexEntry(id, hash)]
    requires st'.files == Retire(st.files, o)[id := file] && file.name == name
    requires st'.vectorStore == Retire(st.vectorStore, o)[id := attributes]
    requires "file_name" in attributes && attributes["file_name"] == name
    requires "hash" in attributes && attributes["hash"] == hash
    requires st'.created == st.created + [id] && issued0 <= id && id !in st.created
    ensures Backed(st', issued0)
  {
    forall other | other in st'.entries && st'.entries[other].fileId >= issued0
      ensures BackedEntry(st', other)
    {
      if other != name {
        var k := st.entries[other].fileId;
        assert BackedEntry(st, other);
        assert o.Updated? ==> k != o.oldId;
      }
    }
    forall n1, n2 | n1 in st'.entries && n2 in st'.entries && n1 != n2 && st'.entries[n1].fileId >= issued0
      ensures st'.entries[n1].fileId != st'.entries[n2].fileId
    {
      if n1 != name && n2 != name {
        assert st'.entries[n1] == st.entries[n1] && st'.entries[n2] == st.entries[n2];
      } else if n1 != name {
        assert BackedEntry(st, n1);
      }
    }
  }

  /** One upload with a fresh id keeps `Backed`. */
  lemma BackedStep(st: Remote, article: Article, computeHash: string -> Md5Hex, id: FileId, issued0: nat)
    requires Backed(st, issued0)
    requires UploadEffect(st, article, computeHash, id).created != st.created ==>
               issued0 <= id && forall k :: k in st.created ==> k < id
    ensures Backed(UploadEffect(st, article, computeHash, id), issued0)
  {
    var name, hash := FileName(article), computeHash(article.markdown);
    var o := Classify(st.entries, name, hash);
    if o != Skipped {
      var attributes := UploadAttributes(hash, name, article.url);
      assert "file_name" in attributes && attributes["file_name"] == name;
      assert "hash" in attributes && attributes["hash"] == hash;
      BackedPut(st, UploadEffect(st, article, computeHash, id), name, hash, id, o,
                StoredFile(name, article.markdown), attributes, issued0);
    }
  }

  /** Replaying one article more either keeps the created ids or appends one. */
  lemma ReplayCreated(s: Remote, articles: seq<Article>, computeHash: string -> Md5Hex, ids: seq<FileId>)
    requires |ids| == |articles| > 0
    ensures var n := |articles| - 1;
            var before := Replay(s, articles[..n], computeHash, ids[..n]).created;
            var after := Replay(s, articles, computeHash, ids).created;
            after == before || after == before + [ids[n]]
  {
  }

  /** A prefix of an increasing sequence of ids at or above `issued0` is one too, and its ids lie below the appended one. */
  lemma IncreasingPrefix(xs: seq<FileId>, id: FileId, issued0: nat)
    requires Increasing(xs + [id]) && forall k :: k in xs + [id] ==> issued0 <= k
    ensures Increasing(xs) && issued0 <= id && (forall k :: k in xs ==> issued0 <= k && k < id)
  {
    assert id in xs + [id];
    forall k | k in xs
      ensures issued0 <= k && k < id
    {
      var j :| 0 <= j < |xs| && xs[j] == k;
      assert (xs + [id])[j] == k && (xs + [id])[|xs|] == id;
      assert k in xs + [id];
      assert (xs + [id])[j] < (xs + [id])[|xs|];
    }
    forall j, k | 0 <= j < k < |xs|
      ensures xs[j] < xs[k]
    {
      assert (xs + [id])[j] == xs[j] && (xs + [id])[k] == xs[k];
    }
  }

  /**
   After a replay from a mapping whose ids are all below `issued0`, with the
   created ids fresh and increasing, every entry created during the run points
   at its own file, uploaded under its name and attached under its name and hash.
   */
  lemma {:induction false} ReplayBacked(s: Remote, articles: seq<Article>, computeHash: string -> Md5Hex, ids: seq<FileId>, issued0: nat)
    requires |ids| == |articles|
    requires s.created == [] && forall name :: name in s.entries ==> s.entries[name].fileId < issued0
    requires var st := Replay(s, articles, computeHash, ids);
             Increasing(st.created) && forall k :: k in st.created ==> issued0 <= k
    ensures Backed(Replay(s, articles, computeHash, ids), issued0)
  {
    if articles != [] {
      var n := |articles| - 1;
      var st := Replay(s, articles[..n], computeHash, ids[..n]);
      var st' := UploadEffect(st, articles[n], computeHash, ids[n]);
      assert Replay(s, articles, computeHash, ids) == st';
      ReplayCreated(s, articles, computeHash, ids);
      if st'.created != st.created {
        IncreasingPrefix(st.created, ids[n], issued0);
      }
      ReplayBacked(s, articles[..n], computeHash, ids[..n], issued0);
      BackedStep(st, articles[n], computeHash, ids[n], issued0);
    }
  }

  /** The state a run from `start` has reached after `i` articles is their replay, with fresh increasing ids. */
  ghost predicate Replays(now: Snapshot, start: Snapshot, articles: seq<Article>, ids: seq<FileId>, computeHash: string -> Md5Hex)
    requires |ids| <= |articles|
  {
    var st := Replay(Remote(start.entries, start.files, start.vectorStore, start.calls, []),
                     articles[..|ids|], computeHash, ids);
    && Shows(st, now)
    && start.issued <= now.issued
    && Increasing(st.created)
    && (forall k :: k in st.created ==> start.issued <= k < now.issued)
  }

  /** The replayed state `st` shows the mapping and the store of the snapshot `now`. */
  ghost predicate Shows(st: Remote, now: Snapshot) {
    st.entries == now.entries && st.files == now.files && st.vectorStore == now.vectorStore && st.calls == now.calls
  }

  /** One upload does to the replayed state what `UploadEffect` says, and creates at most an id above what is in use. */
  lemma EffectShows(st: Remote, b: Snapshot, a: Snapshot, article: Article, computeHash: string -> Md5Hex, id: FileId)
    requires Shows(st, b)
    requires Uploaded(b, a, article, computeHash)
    requires FileName(article) in a.entries && id == a.entries[FileName(article)].fileId
    ensures Shows(UploadEffect(st, article, computeHash, id), a)
    ensures var created := UploadEffect(st, article, computeHash, id).created;
            created == st.created || (created == st.created + [id] && b.issued <= id < a.issued)
    ensures b.issued <= a.issued
  {
    var name, hash := FileName(article), computeHash(article.markdown);
    var o := Classify(b.entries, name, hash);
    if o != Skipped {
      var st' := UploadEffect(st, article, computeHash, id);
      assert st'.files == a.files;
      assert st'.vectorStore == a.vectorStore;
    }
  }

  /** Appending at most one id above those in use keeps the created ids increasing and in range. */
  lemma CreatedStep(created: seq<FileId>, created': seq<FileId>, id: FileId, issued0: nat, before: nat, after: nat)
    requires Increasing(created) && forall k :: k in created ==> issued0 <= k < before
    requires created' == created || (created' == created + [id] && before <= id < after)
    requires issued0 <= before <= after
    ensures Increasing(created') && forall k :: k in created' ==> issued0 <= k < after
  {
    assert forall j :: 0 <= j < |created| ==> created[j] in created;
  }

  /** One more upload extends the replay by one article. */
  lemma ReplaysStep(b: Snapshot, a: Snapshot, start: Snapshot, articles: seq<Article>, ids: seq<FileId>,
                    computeHash: string -> Md5Hex, id: FileId)
    requires |ids| < |articles|
    requires Replays(b, start, articles, ids, computeHash)
    requires Uploaded(b, a, articles[|ids|], computeHash)
    requires FileName(articles[|ids|]) in a.entries && id == a.entries[FileName(articles[|ids|])].fileId
    ensures Replays(a, start, articles, ids + [id], computeHash)
  {
    var s0 := Remote(start.entries, start.files, start.vectorStore, start.calls, []);
    var st := Replay(s0, articles[..|ids|], computeHash, ids);
    ReplayStep(s0, articles, computeHash, ids, id);
    var st' := UploadEffect(st, articles[|ids|], computeHash, id);
    EffectShows(st, b, a, articles[|ids|], computeHash, id);
    CreatedStep(st.created, st'.created, id, start.issued, b.issued, a.issued);
  }

  /**
   The loop invariant of `run` after the articles `ids` has covered, as one
   predicate: `Tallied`, `Framed`, `Accounted` and `Replays`, and a mapping that
   described the store still does.
   */
  ghost predicate Progress(now: Snapshot, start: Snapshot, articles: seq<Article>, ids: seq<FileId>, computeHash: string -> Md5Hex)
    requires |ids| <= |articles|
  {
    && Tallied(now, start, articles, |ids|, computeHash)
    && Framed(now, start, articles, |ids|, computeHash)
    && Accounted(now, start)
    && Replays(now, start, articles, ids, computeHash)
    && (Mirrors(start.entries, start.vectorStore) ==> Mirrors(now.entries, now.vectorStore))
  }

  /** One more upload extends `Progress` by one article. */
  lemma ProgressStep(b: Snapshot, a: Snapshot, start: Snapshot, articles: seq<Article>, ids: seq<FileId>,
                     computeHash: string -> Md5Hex, id: FileId)
    requires |ids| < |articles|
    requires Progress(b, start, articles, ids, computeHash)
    requires Uploaded(b, a, articles[|ids|], computeHash)
    requires Mirrors(b.entries, b.vectorStore) ==> Mirrors(a.entries, a.vectorStore)
    requires FileName(articles[|ids|]) in a.entries && id == a.entries[FileName(articles[|ids|])].fileId
    ensures Progress(a, start, articles, ids + [id], computeHash)
  {
    TalliedStep(b, a, start, articles, |ids|, computeHash);
    FramedStep(b, a, start, articles, |ids|, computeHash);
    AccountedStep(b, a, start, articles[|ids|], computeHash);
    ReplaysStep(b, a, start, articles, ids, computeHash, id);
  }

  /** What `Progress` says once every article is done. */
  lemma ProgressDone(now: Snapshot, start: Snapshot, articles: seq<Article>, ids: seq<FileId>, computeHash: string -> Md5Hex)
    requires |ids| == |articles|
    requires Progress(now, start, articles, ids, computeHash)
    ensures var counted := Count(start.entries, articles, computeHash);
            && now.counters == start.counters.Plus(counted)
            && Settled(now.entries, start.entries, Targets(articles, computeHash))
            && KeptExcept(start.files, now.files, Replaced(start.entries, articles, computeHash))
            && KeptExcept(start.vectorStore, now.vectorStore, Replaced(start.entries, articles, computeHash))
            && (counted.added == 0 && counted.updated == 0 ==>
                  && now.entries == start.entries && now.files == start.files
                  && now.vectorStore == start.vectorStore && now.calls == start.calls)
            && start.issued <= now.issued
            && |now.calls| == |start.calls| + 2 * counted.added + 4 * counted.updated
    ensures && now.files.Keys - start.files.Keys <= EntryIds(now.entries)
            && now.vectorStore.Keys - start.vectorStore.Keys <= EntryIds(now.entries)
            && start.calls <= now.calls
            && (Mirrors(start.entries, start.vectorStore) ==> Mirrors(now.entries, now.vectorStore))
    ensures var st := Replay(Remote(start.entries, start.files, start.vectorStore, start.calls, []), articles, computeHash, ids);
            && Shows(st, now) && Increasing(st.created) && (forall k :: k in st.created ==> start.issued <= k < now.issued)
  {
    assert articles[..|articles|] == articles;
  }

  /** The file ids a mapping points at. */
  function EntryIds(entries: map<string, IndexEntry>): set<FileId> {
    set name | name in entries :: entries[name].fileId
  }

  /**
   The last part: every file created or attached since `start` is one the
   mapping points at, and the calls since `start` are two for each article
   added and four for each article updated.
   */
  ghost predicate Accounted(now: Snapshot, start: Snapshot) {
    && now.files.Keys - start.files.Keys <= EntryIds(now.entries)
    && now.vectorStore.Keys - start.vectorStore.Keys <= EntryIds(now.entries)
    && start.calls <= now.calls
    && |now.calls| + 2 * start.counters.added + 4 * start.counters.updated
       == |start.calls| + 2 * now.counters.added + 4 * now.counters.updated
  }

  /** One upload keeps every id that is new since `m0` named by the mapping. */
  lemma NamedStep<V>(m0: map<FileId, V>, before: map<FileId, V>, after: map<FileId, V>,
                     eb: map<string, IndexEntry>, ea: map<string, IndexEntry>, name: string, hash: string, id: FileId)
    requires before.Keys - m0.Keys <= EntryIds(eb)
    requires var o := Classify(eb, name, hash);
             && (o == Skipped ==> after == before && ea == eb)
             && (o != Skipped ==> id in after && ea == eb[name := IndexEntry(id, hash)]
                                  && after == Retire(before, o)[id := after[id]])
    ensures after.Keys - m0.Keys <= EntryIds(ea)
  {
    var o := Classify(eb, name, hash);
    if o != Skipped {
      forall k | k in after.Keys - m0.Keys
        ensures k in EntryIds(ea)
      {
        if k == id {
          assert ea[name].fileId == k;
        } else {
          assert k in before.Keys - m0.Keys;
          var n :| n in eb && eb[n].fileId == k;
          // the name's old file, if any, was retired
          assert n != name;
          assert ea[n].fileId == k;
        }
      }
    }
  }

  /** One more upload extends `Accounted` by one article. */
  lemma AccountedStep(b: Snapshot, a: Snapshot, start: Snapshot, article: Article, computeHash: string -> Md5Hex)
    requires Accounted(b, start)
    requires Uploaded(b, a, article, computeHash)
    ensures Accounted(a, start)
  {
    var name, hash := FileName(article), computeHash(article.markdown);
    var id := if name in a.entries then a.entries[name].fileId else 0;
    NamedStep(start.files, b.files, a.files, b.entries, a.entries, name, hash, id);
    NamedStep(start.vectorStore, b.vectorStore, a.vectorStore, b.entries, a.entries, name, hash, id);
  }

  /** The `existing_files` dictionary that `run` passes to every `upload_file` call. */
  class ExistingFiles {
    var entries: map<string, IndexEntry>

    constructor (entries: map<string, IndexEntry>)
      ensures this.entries == entries
    {
      this.entries := entries;
    }
  }

  class Uploader {
    /** The API client. */
    const client: RemoteStore
    /** `compute_hash` on the UTF-8 bytes of a text: a fixed, deterministic function. */
    const computeHash: string -> Md5Hex
    var addedCount: nat
    var updatedCount: nat
    var skippedCount: nat

    constructor (client: RemoteStore, computeHash: string -> Md5Hex)
      ensures this.client == client && this.computeHash == computeHash
      ensures addedCount == 0 && updatedCount == 0 && skippedCount == 0
    {
      this.client := client;
      this.computeHash := computeHash;
      addedCount, updatedCount, skippedCount := 0, 0, 0;
    }

    /** The three counters. */
    function Counters(): Tally
      reads this
    {
      Tally(addedCount, updatedCount, skippedCount)
    }

    /**
     `get_existing_files`: every page, in order, folded into the mapping.
     Fails like the source does when a page that claims more holds no entry.
     */
    method GetExistingFiles(pages: seq<Page>) returns (r: Result<map<string, IndexEntry>, ListError>)
      requires WellFormedListing(pages)
      ensures r.Failure? <==> EmptyPageBeforeEnd(pages)
      ensures r.Success? ==> r.value == Collect(Flatten(pages))
    {
      var mapping: map<string, IndexEntry> := map[];
      var p := 0;
      while true
        invariant 0 <= p < |pages|
        invariant mapping == Collect(Flatten(pages[..p]))
        invariant forall i :: 0 <= i < p ==> pages[i].data != []
        decreases |pages| - p
      {
        var files := pages[p];
        ghost var before := Flatten(pages[..p]);
        assert before + files.data[..0] == before;
        for j := 0 to |files.data|
          invariant mapping == Collect(before + files.data[..j])
        {
          var file := files.data[j];
          if Truthy(file.attributes, "hash") && Truthy(file.attributes, "file_name") {
            mapping := mapping[file.attributes["file_name"] := IndexEntry(file.id, file.attributes["hash"])];
          }
          CollectStep(before, files.data, j);
        }
        FlattenStep(pages, p);
        if !files.hasMore {
          break;
        }
        if files.data == [] {
          // `files.data[-1]` raises IndexError
          assert p < |pages| - 1;
          return Failure(IndexError);
        }
        p := p + 1;
      }
      assert p == |pages| - 1 && pages[..|pages|] == pages;
      return Success(mapping);
    }

    /**
     `count_chunks` on a text of `totalTokens` tokens. The source's loop ends exactly
     when the stride is positive or the first window already reaches the end, and the
     model asks for that.
     */
    method CountChunks(totalTokens: nat, chunkSize: int, overlap: int) returns (chunkCount: nat)
      requires overlap < chunkSize || totalTokens <= chunkSize
      ensures overlap < chunkSize ==> chunkCount == ChunkEstimate(totalTokens, chunkSize, overlap)
      ensures overlap >= chunkSize ==> chunkCount == if totalTokens == 0 then 0 else 1
      ensures chunkCount == 0 <==> totalTokens == 0
      ensures totalTokens > 0 && overlap < chunkSize ==> WindowStart(chunkCount - 1, chunkSize, overlap) < totalTokens
    {
      var stride := chunkSize - overlap;
      var x := Max0(totalTokens - chunkSize);
      chunkCount := 0;
      var start := 0;
      while start < totalTokens
        invariant overlap >= chunkSize ==> start == 0 && chunkCount == 0
        invariant start == chunkCount * stride
        invariant chunkCount > 0 ==> (chunkCount - 1) * stride < totalTokens
        invariant chunkCount > 0 ==> (chunkCount - 1) * stride + chunkSize < totalTokens
        decreases totalTokens - start
      {
        var end := Min(start + chunkSize, totalTokens);
        chunkCount := chunkCount + 1;
        if end == totalTokens {
          if overlap < chunkSize {
            // window chunkCount - 1 is the first to reach the end
            CeilDivUnique(x, Stride(chunkSize, overlap), chunkCount - 1);
            CeilDivAtLeast(totalTokens, Stride(chunkSize, overlap), chunkCount);
          }
          break;
        }
        start := start + stride;
      }
      if overlap < chunkSize {
        if start >= totalTokens {
          // every window started before the end without reaching it
          CeilDivUnique(totalTokens, Stride(chunkSize, overlap), chunkCount);
          if chunkCount > 0 {
            CeilDivAtLeast(x, Stride(chunkSize, overlap), chunkCount);
          }
        }
        ChunkEstimateZero(totalTokens, chunkSize, overlap);
      }
    }

    /** `upload_file(article, existing_files)`. */
    method UploadFile(article: Article, existing: ExistingFiles)
      requires client.Valid()
      modifies this, existing, client
      ensures client.Valid() && old(client.issued) <= client.issued
      // exactly one counter moves
      ensures var o := Classify(old(existing.entries), FileName(article), computeHash(article.markdown));
              && addedCount == old(addedCount) + (if o == Added then 1 else 0)
              && updatedCount == old(updatedCount) + (if o.Updated? then 1 else 0)
              && skippedCount == old(skippedCount) + (if o == Skipped then 1 else 0)
      // a skip touches neither the mapping nor the store
      ensures Classify(old(existing.entries), FileName(article), computeHash(article.markdown)) == Skipped ==>
              && existing.entries == old(existing.entries)
              && client.files == old(client.files)
              && client.vectorStore == old(client.vectorStore)
              && client.calls == old(client.calls)
      // an update or an add retires the old file, then creates and attaches a new one
      ensures var o := Classify(old(existing.entries), FileName(article), computeHash(article.markdown));
              o != Skipped ==>
              && FileName(article) in existing.entries
              && var id := existing.entries[FileName(article)].fileId;
              && id !in old(client.files) && id !in old(client.vectorStore) && old(client.issued) <= id
              && existing.entries == old(existing.entries)[FileName(article) := IndexEntry(id, computeHash(article.markdown))]
              && client.calls == old(client.calls) + Retirement(o) +
                   [Created(id, FileName(article)),
                    Attached(id, UploadAttributes(computeHash(article.markdown), FileName(article), article.url))]
              && client.files == Retire(old(client.files), o)[id := StoredFile(FileName(article), article.markdown)]
              && client.vectorStore == Retire(old(client.vectorStore), o)
                                         [id := UploadAttributes(computeHash(article.markdown), FileName(article), article.url)]
      // afterwards the article is up to date, and nothing else in the mapping moved
      ensures UpToDate(old(existing.entries), existing.entries, FileName(article), computeHash(article.markdown))
      // so the same article again is a skip
      ensures Classify(existing.entries, FileName(article), computeHash(article.markdown)) == Skipped
      ensures old(Mirrors(existing.entries, client.vectorStore)) ==> Mirrors(existing.entries, client.vectorStore)
      // the same, on the state as a whole
      ensures Uploaded(old(Now(existing)), Now(existing), article, computeHash)
    {
      var fileName := article.slug + ".md";
      var fileContent := article.markdown;
      var fileHash := computeHash(fileContent);
      ghost var mirrored := Mirrors(existing.entries, client.vectorStore);
      ghost var o := Classify(existing.entries, fileName, fileHash);

      if fileName in existing.entries {
        var existFile := existing.entries[fileName];
        if existFile.hash == fileHash {
          skippedCount := skippedCount + 1;
          return;
        }
        client.DetachFile(existFile.fileId);
        client.DeleteFile(existFile.fileId);
        updatedCount := updatedCount + 1;
      } else {
        addedCount := addedCount + 1;
      }
      ghost var retired := client.calls;
      assert retired == old(client.calls) + Retirement(o);
      assert client.files == Retire(old(client.files), o);
      assert client.vectorStore == Retire(old(client.vectorStore), o);

      var fileId := client.CreateFile(fileName, fileContent);
      client.AttachFile(fileId, UploadAttributes(fileHash, fileName, article.url));
      assert client.calls == retired + [Created(fileId, fileName), Attached(fileId, UploadAttributes(fileHash, fileName, article.url))];
      existing.entries := existing.entries[fileName := IndexEntry(fileId, fileHash)];
      if mirrored {
        MirrorsAfterUpload(old(existing.entries), old(client.vectorStore), fileName, fileHash, article.url, fileId);
      }
    }

    /**
     `run`: read the listing, then `upload_file` every article in order. The
     result is the final mapping, or the listing's failure before any upload.
     */
    method Run(pages: seq<Page>, articles: seq<Article>) returns (r: Result<map<string, IndexEntry>, ListError>, ghost ids: seq<FileId>)
      requires WellFormedListing(pages) && client.Valid()
      modifies this, client
      ensures client.Valid()
      ensures r.Failure? <==> EmptyPageBeforeEnd(pages)
      ensures r.Failure? ==>
                && Counters() == old(Counters())
                && client.files == old(client.files) && client.vectorStore == old(client.vectorStore)
                && client.calls == old(client.calls) && client.issued == old(client.issued)
      // the final mapping and the store are the replay of the articles over the listing, with fresh ids in increasing order
      ensures r.Success? ==> |ids| == |articles|
      ensures r.Success? ==>
                var st := Replay(Remote(Collect(Flatten(pages)), old(client.files), old(client.vectorStore), old(client.calls), []),
                                 articles, computeHash, ids);
                && r.value == st.entries && client.files == st.files
                && client.vectorStore == st.vectorStore && client.calls == st.calls
                && Increasing(st.created) && (forall k :: k in st.created ==> old(client.issued) <= k < client.issued)
      // each counter rises by the articles it counts; one counter per article
      ensures r.Success? ==> Counters() == old(Counters()).Plus(Count(Collect(Flatten(pages)), articles, computeHash))
      ensures r.Success? ==> Counters().Total() == old(Counters().Total()) + |articles|
      // every article's name now carries the hash of the last article with that name
      ensures r.Success? ==> Reaches(r.value, Targets(articles, computeHash))
      // names no article has are as the listing showed them
      ensures r.Success? ==> forall name :: name !in Targets(articles, computeHash) ==>
                (name in r.value <==> name in Collect(Flatten(pages))) &&
                (name in r.value ==> r.value[name] == Collect(Flatten(pages))[name])
      // the files that were there stay as they were, except the listed files the articles replace, which are gone
      ensures r.Success? ==> KeptExcept(old(client.files), client.files, Replaced(Collect(Flatten(pages)), articles, computeHash))
      ensures r.Success? ==> KeptExcept(old(client.vectorStore), client.vectorStore, Replaced(Collect(Flatten(pages)), articles, computeHash))
      // every file created or attached during the run is one the final mapping points at
      ensures r.Success? ==> client.files.Keys - old(client.files).Keys <= EntryIds(r.value)
      ensures r.Success? ==> client.vectorStore.Keys - old(client.vectorStore).Keys <= EntryIds(r.value)
      // the calls made are two per article added and four per article updated
      ensures r.Success? ==> && old(client.calls) <= client.calls
                             && |client.calls| == |old(client.calls)| + 2 * Count(Collect(Flatten(pages)), articles, computeHash).added
                                                                       + 4 * Count(Collect(Flatten(pages)), articles, computeHash).updated
      ensures old(client.issued) <= client.issued
      // with nothing added or updated, nothing was called and the mapping is the listing's
      ensures r.Success? && Count(Collect(Flatten(pages)), articles, computeHash).added == 0
                         && Count(Collect(Flatten(pages)), articles, computeHash).updated == 0 ==>
                && r.value == Collect(Flatten(pages))
                && client.files == old(client.files) && client.vectorStore == old(client.vectorStore)
                && client.calls == old(client.calls)
      // a second run over a listing that holds every article's hash skips every article and calls nothing
      ensures r.Success? && Reaches(Collect(Flatten(pages)), Targets(articles, computeHash)) && DistinctNames(articles) ==>
                && Counters() == old(Counters()).Plus(Tally(0, 0, |articles|))
                && client.calls == old(client.calls)
      // when the listing describes the store, so does the final mapping
      ensures r.Success? && ListingOf(Flatten(pages), old(client.vectorStore)) ==>
                Mirrors(r.value, client.vectorStore)
    {
      var listing := GetExistingFiles(pages);
      if listing.Failure? {
        return Failure(listing.error), [];
      }
      var initial := listing.value;
      if ListingOf(Flatten(pages), client.vectorStore) {
        ListingMirrors(Flatten(pages), client.vectorStore);
      }
      var existing := new ExistingFiles(initial);
      ids := UploadAll(existing, articles);
      CountTotal(initial, articles, computeHash);
      if Reaches(initial, Targets(articles, computeHash)) && DistinctNames(articles) {
        RerunSkipsAll(initial, articles, computeHash);
      }
      return Success(existing.entries), ids;
    }

    /** The mapping, the counters and the store as they are now. */
    ghost function Now(existing: ExistingFiles): Snapshot
      reads this, existing, client
    {
      Snapshot(existing.entries, Counters(), client.files, client.vectorStore, client.calls, client.issued)
    }

    /** The loop of `run`: `upload_file` on every article, in order, against the same `existing_files`. */
    method UploadAll(existing: ExistingFiles, articles: seq<Article>) returns (ghost ids: seq<FileId>)
      requires client.Valid()
      modifies this, existing, client
      ensures client.Valid()
      // the mapping and the store are the replay of the articles, with fresh ids in increasing order
      ensures |ids| == |articles|
      ensures var st := Replay(Remote(old(existing.entries), old(client.files), old(client.vectorStore), old(client.calls), []),
                               articles, computeHash, ids);
              && existing.entries == st.entries && client.files == st.files
              && client.vectorStore == st.vectorStore && client.calls == st.calls
              && Increasing(st.created) && (forall k :: k in st.created ==> old(client.issued) <= k < client.issued)
      ensures Counters() == old(Counters()).Plus(Count(old(existing.entries), articles, computeHash))
      ensures Settled(existing.entries, old(existing.entries), Targets(articles, computeHash))
      ensures KeptExcept(old(client.files), client.files, Replaced(old(existing.entries), articles, computeHash))
      ensures KeptExcept(old(client.vectorStore), client.vectorStore, Replaced(old(existing.entries), articles, computeHash))
      ensures Count(old(existing.entries), articles, computeHash).added == 0
              && Count(old(existing.entries), articles, computeHash).updated == 0 ==>
                && existing.entries == old(existing.entries)
                && client.files == old(client.files) && client.vectorStore == old(client.vectorStore)
                && client.calls == old(client.calls)
      ensures old(Mirrors(existing.entries, client.vectorStore)) ==> Mirrors(existing.entries, client.vectorStore)
      ensures old(client.issued) <= client.issued
      ensures client.files.Keys - old(client.files).Keys <= EntryIds(existing.entries)
      ensures client.vectorStore.Keys - old(client.vectorStore).Keys <= EntryIds(existing.entries)
      ensures old(client.calls) <= client.calls
      ensures |client.calls| == |old(client.calls)| + 2 * Count(old(existing.entries), articles, computeHash).added
                                                   + 4 * Count(old(existing.entries), articles, computeHash).updated
    {
      ghost var start := Now(existing);
      ids := [];
      for i := 0 to |articles|
        invariant client.Valid()
        invariant |ids| == i && Progress(Now(existing), start, articles, ids, computeHash)
      {
        ghost var before := Now(existing);
        UploadFile(articles[i], existing);
        ghost var id := existing.entries[FileName(articles[i])].fileId;
        ProgressStep(before, Now(existing), start, articles, ids, computeHash, id);
        ids := ids + [id];
      }
      ProgressDone(Now(existing), start, articles, ids, computeHash);
    }
  }

  /**
   Replacing or adding one name keeps the mapping a faithful description of
   the store: the old file under that name is gone and the new one is attached
   with the name and hash the mapping records.
   */
  lemma MirrorsAfterUpload(entries: map<string, IndexEntry>, vectorStore: map<FileId, Attributes>,
                           name: string, hash: string, url: string, id: FileId)
    requires Mirrors(entries, vectorStore)
    requires id !in vectorStore
    requires Classify(entries, name, hash) != Skipped
    ensures Mirrors(entries[name := IndexEntry(id, hash)],
                    Retire(vectorStore, Classify(entries, name, hash))[id := UploadAttributes(hash, name, url)])
  {
  }
}
