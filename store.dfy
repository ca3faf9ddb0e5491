/**
 * The object store (`.gitlet/objects`, one object per content id) as a map,
 * and the read-only lookups `getFileData`, `getCommitData` and `getParentFileData`.
 */
module Store {
  import opened Results
  import opened Records

  type Objects = map<ContentId, string>

  /**
   * What the model assumes of `hash_Object` (SHA-1 of the text): it never
   * collides and it never yields the empty string that stands for "no commit".
   */
  ghost predicate IsDigest(hash: string -> ContentId) {
    (forall a, b :: hash(a) == hash(b) ==> a == b) &&
    (forall a :: hash(a) != "")
  }

  /**
   * What the model assumes of `json.dumps` and `json.loads` on commit records:
   * loading what was dumped gives the record back.
   */
  ghost predicate IsCodec(encode: CommitRecord -> string, decode: string -> Option<CommitRecord>) {
    forall c :: decode(encode(c)) == Some(c)
  }

  /** A digest of this kind exists, so a repository can be created. */
  lemma DigestExists()
    ensures IsDigest((s: string) => "h" + s)
  {
    forall a: string, b: string | "h" + a == "h" + b
      ensures a == b
    {
      assert a == ("h" + a)[1..];
      assert b == ("h" + b)[1..];
    }
  }

  /** Every object is stored under the hash of its own content. */
  ghost predicate ContentAddressed(store: Objects, hash: string -> ContentId) {
    forall k :: k in store ==> hash(store[k]) == k
  }

  /** `after` keeps every object of `before` as it was. */
  ghost predicate Extends(before: Objects, after: Objects) {
    forall k :: k in before ==> k in after && after[k] == before[k]
  }

  /** `getFileData`: the text stored under `fileHash`. */
  function FileData(store: Objects, fileHash: ContentId): (r: Result<string>)
    ensures r.Ok? <==> fileHash in store
    ensures r.Ok? ==> r.value == store[fileHash]
    ensures r.Err? ==> r.error == NotFound(fileHash)
  {
    if fileHash in store then Ok(store[fileHash]) else Err(NotFound(fileHash))
  }

  /** `getCommitData`: the commit record stored under `commitHash`. */
  function CommitData(store: Objects, decode: string -> Option<CommitRecord>, commitHash: ContentId)
    : (r: Result<CommitRecord>)
    ensures r.Ok? ==> commitHash in store && decode(store[commitHash]) == Some(r.value)
    ensures commitHash !in store ==> r == Err(NotFound(commitHash))
    ensures commitHash in store && decode(store[commitHash]).None? ==> r == Err(CorruptData(commitHash))
    ensures commitHash in store && decode(store[commitHash]).Some? ==> r == Ok(decode(store[commitHash]).value)
  {
    if commitHash !in store then Err(NotFound(commitHash))
    else match decode(store[commitHash])
      case None => Err(CorruptData(commitHash))
      case Some(c) => Ok(c)
  }

  /** The hash of the first entry staged under `path`, scanning in stored order. */
  function FirstMatch(files: seq<IndexEntry>, path: string): (r: Option<ContentId>)
    ensures r.None? <==> forall i :: 0 <= i < |files| ==> files[i].path != path
    ensures r.Some? ==> exists i :: 0 <= i < |files| && files[i].path == path && files[i].hash == r.value
                                    && forall j :: 0 <= j < i ==> files[j].path != path
  {
    if files == [] then None
    else if files[0].path == path then Some(files[0].hash)
    else
      var r := FirstMatch(files[1..], path);
      assert forall i :: 1 <= i < |files| ==> files[i] == files[1..][i - 1];
      r
  }

  /**
   * `getParentFileData`: the text of the first entry of `parent` whose path is `path`,
   * `None` when no entry has that path.
   */
  function ParentFileData(store: Objects, parent: CommitRecord, path: string): (r: Result<Option<string>>)
    ensures FirstMatch(parent.files, path).Some? ==>
      var h := FirstMatch(parent.files, path).value;
      r == if h in store then Ok(Some(store[h])) else Err(NotFound(h))
    ensures r == Ok(None) <==> forall i :: 0 <= i < |parent.files| ==> parent.files[i].path != path
    ensures r.Ok? && r.value.Some? ==>
      exists i :: 0 <= i < |parent.files| && parent.files[i].path == path
                  && parent.files[i].hash in store && store[parent.files[i].hash] == r.value.value
                  && forall j :: 0 <= j < i ==> parent.files[j].path != path
    ensures r.Err? ==> exists i :: 0 <= i < |parent.files| && parent.files[i].path == path
                                 && r.error == NotFound(parent.files[i].hash) && parent.files[i].hash !in store
  {
    match FirstMatch(parent.files, path)
    case None => Ok(None)
    case Some(h) =>
      var content :- FileData(store, h);
      Ok(Some(content))
  }

  /** The commit `HEAD` names after the commits `chain`, oldest first, were made. */
  function Tip(chain: seq<ContentId>): ContentId {
    if chain == [] then "" else chain[|chain| - 1]
  }

  /**
   * `chain` is a linear history in `store`: each id names the encoding of the
   * matching record of `history`, whose parent is the commit before it; the
   * first one's parent is "".
   */
  ghost predicate Chain(store: Objects, encode: CommitRecord -> string,
                        chain: seq<ContentId>, history: seq<CommitRecord>) {
    |chain| == |history| &&
    (forall j {:trigger history[j]} :: 0 <= j < |chain| ==> chain[j] != "" && chain[j] in store && store[chain[j]] == encode(history[j])) &&
    (forall j {:trigger history[j]} :: 0 <= j < |history| ==> history[j].parent == if j == 0 then "" else chain[j - 1])
  }

  /** No commit of a history has the empty id, and `HEAD` names its last commit. */
  lemma ChainTip(store: Objects, encode: CommitRecord -> string, decode: string -> Option<CommitRecord>,
                 chain: seq<ContentId>, history: seq<CommitRecord>)
    requires IsCodec(encode, decode) && Chain(store, encode, chain, history)
    ensures forall j :: 0 <= j < |chain| ==> chain[j] != ""
    ensures Tip(chain) == "" <==> chain == []
    ensures chain != [] ==> CommitData(store, decode, Tip(chain)) == Ok(history[|chain| - 1])
  {
    forall j | 0 <= j < |chain|
      ensures chain[j] != ""
    {
      var h := history[j];  // names the term the chain's quantifier is triggered on
    }
    if chain != [] {
      ChainReads(store, encode, decode, chain, history, |chain| - 1);
    }
  }

  /** Every commit of a history reads back, through `getCommitData`, as its record. */
  lemma ChainReads(store: Objects, encode: CommitRecord -> string, decode: string -> Option<CommitRecord>,
                   chain: seq<ContentId>, history: seq<CommitRecord>, j: int)
    requires IsCodec(encode, decode) && Chain(store, encode, chain, history) && 0 <= j < |chain|
    ensures CommitData(store, decode, chain[j]) == Ok(history[j])
    ensures history[j].parent == if j == 0 then "" else chain[j - 1]
  {
    assert decode(encode(history[j])) == Some(history[j]);
  }

  /** Later duplicates of a path never change what the first-match scan finds. */
  lemma {:induction false} FirstMatchIgnoresLater(files: seq<IndexEntry>, later: seq<IndexEntry>, path: string)
    requires FirstMatch(files, path).Some?
    ensures FirstMatch(files + later, path) == FirstMatch(files, path)
  {
    assert files != [];
    if files[0].path != path {
      assert (files + later)[1..] == files[1..] + later;
      FirstMatchIgnoresLater(files[1..], later, path);
    }
  }

  /**
   * Storing `content` under its hash keeps the store content-addressed, keeps
   * every existing object, changes nothing when the content is already there,
   * and makes `getFileData` return exactly `content`.
   */
  lemma Put(store: Objects, hash: string -> ContentId, content: string)
    requires IsDigest(hash) && ContentAddressed(store, hash)
    ensures var after := store[hash(content) := content];
      ContentAddressed(after, hash) && Extends(store, after) &&
      (hash(content) in store ==> after == store) &&
      FileData(after, hash(content)) == Ok(content)
  {
    var after := store[hash(content) := content];
    if hash(content) in store {
      assert hash(store[hash(content)]) == hash(content);
      assert store[hash(content)] == content;
      assert after == store;
    }
  }

  /** A history stays a history when the store only grows. */
  lemma ChainExtends(store: Objects, after: Objects, encode: CommitRecord -> string,
                     chain: seq<ContentId>, history: seq<CommitRecord>)
    requires Chain(store, encode, chain, history) && Extends(store, after)
    ensures Chain(after, encode, chain, history)
  {
    forall j | 0 <= j < |chain|
      ensures chain[j] in after && after[chain[j]] == encode(history[j])
    {
      var c := history[j];
      assert chain[j] in store && store[chain[j]] == encode(c);
    }
  }

  /** A commit stored under a fresh id whose parent is the old tip extends the history by one. */
  lemma ChainGrows(store: Objects, encode: CommitRecord -> string,
                   chain: seq<ContentId>, history: seq<CommitRecord>, id: ContentId, c: CommitRecord)
    requires Chain(store, encode, chain, history)
    requires id != "" && id in store && store[id] == encode(c) && c.parent == Tip(chain)
    ensures Chain(store, encode, chain + [id], history + [c])
  {
    var chain', history' := chain + [id], history + [c];
    forall j | 0 <= j < |chain'|
      ensures chain'[j] != "" && chain'[j] in store && store[chain'[j]] == encode(history'[j])
      ensures history'[j].parent == if j == 0 then "" else chain'[j - 1]
    {
      if j < |chain| {
        var h := history[j];
        assert history'[j] == h && chain'[j] == chain[j];
        if j > 0 {
          assert chain'[j - 1] == chain[j - 1];
        }
      }
    }
  }

  /** What `getCommitData` reads from a store stays readable, unchanged, as the store grows. */
  lemma CommitDataExtends(store: Objects, after: Objects, decode: string -> Option<CommitRecord>, id: ContentId)
    requires Extends(store, after) && id in store
    ensures CommitData(after, decode, id) == CommitData(store, decode, id)
  {
  }
}
