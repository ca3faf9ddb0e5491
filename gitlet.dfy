/**
 * The `Gitlet` class: a repository whose object store, staging index and HEAD
 * are fields, updated in place by `add`, `updateStagingArea` and `commit`.
 */
module Repository {
  import opened Results
  import opened Records
  import opened Store
  import opened Diff

  /** What `gitLog` prints for one commit. */
  datatype LogLine = LogLine(hash: ContentId, timestamp: string, message: string)

  class Gitlet {
    /** `hash_Object`. */
    const hash: string -> ContentId
    /** `json.dumps` and `json.loads` of a commit record. */
    const encode: CommitRecord -> string
    const decode: string -> Option<CommitRecord>
    /** `.gitlet/objects`: content id to stored text. */
    var objects: Objects
    /** `.gitlet/index`: the staged entries in the order they were added. */
    var index: seq<IndexEntry>
    /** `.gitlet/HEAD`: the latest commit's id, or "" before the first commit. */
    var head: ContentId
    /** The commits made so far, oldest first; `HEAD` is the last. */
    ghost var commits: seq<ContentId>
    /** The records of those commits. */
    ghost var history: seq<CommitRecord>

    ghost predicate Valid()
      reads this
    {
      IsDigest(hash) && IsCodec(encode, decode) && ContentAddressed(objects, hash) &&
      Chain(objects, encode, commits, history) && head == Tip(commits)
    }

    /**
     * Every staged entry and every entry of every commit names a stored object.
     * `add` keeps this; `updateStagingArea` itself does not check it.
     */
    ghost predicate Resolved()
      reads this
    {
      (forall i :: 0 <= i < |index| ==> index[i].hash in objects) &&
      (forall j, k :: 0 <= j < |history| && 0 <= k < |history[j].files| ==> history[j].files[k].hash in objects)
    }

    /** `__init__` on a directory without a repository: `init` creates an empty one. */
    constructor (hash: string -> ContentId, encode: CommitRecord -> string, decode: string -> Option<CommitRecord>)
      requires IsDigest(hash) && IsCodec(encode, decode)
      ensures Valid() && this.hash == hash && this.encode == encode && this.decode == decode
      ensures objects == map[] && index == [] && head == "" && commits == [] && history == []
      ensures Resolved()
    {
      this.hash := hash;
      this.encode := encode;
      this.decode := decode;
      objects := map[];
      index := [];
      head := "";
      commits := [];
      history := [];
      new;
      Init();
    }

    /**
     * `init`: `HEAD` is only touched, so its content stays; the index is
     * rewritten as `[]` only when it is missing or empty, both of which read
     * as the empty list, so an existing index is left alone.
     */
    method Init()
      modifies this`index
      ensures index == old(index)
    {
      if index == [] {
        index := [];
      }
    }

    /** `getCurrentHead`: "" exactly when no commit has been made, otherwise a stored commit. */
    function GetCurrentHead(): (h: ContentId)
      reads this
      requires Valid()
      ensures h == "" <==> commits == []
      ensures h != "" ==> h == commits[|commits| - 1] && CommitData(objects, decode, h) == Ok(history[|commits| - 1])
    {
      ChainTip(objects, encode, decode, commits, history);
      head
    }

    /** `updateStagingArea`: appends one entry; earlier entries, even for the same path, stay. */
    method UpdateStagingArea(filePath: string, fileHash: ContentId)
      modifies this`index
      ensures index == old(index) + [IndexEntry(filePath, fileHash)]
      ensures old(Resolved()) && fileHash in objects ==> Resolved()
    {
      index := index + [IndexEntry(filePath, fileHash)];
    }

    /**
     * `add`, given the text read from `filePath`: stores it under its hash and
     * stages it. Adding content that is already stored leaves the store as it was.
     */
    method Add(filePath: string, content: string) returns (fileHash: ContentId)
      requires Valid()
      modifies this`objects, this`index
      ensures Valid()
      ensures fileHash == hash(content)
      ensures objects == old(objects)[fileHash := content] && Extends(old(objects), objects)
      ensures fileHash in old(objects) ==> objects == old(objects)
      ensures FileData(objects, fileHash) == Ok(content)
      ensures index == old(index) + [IndexEntry(filePath, fileHash)]
      ensures old(Resolved()) ==> Resolved()
    {
      fileHash := hash(content);
      Put(objects, hash, content);
      ChainExtends(objects, objects[fileHash := content], encode, commits, history);
      objects := objects[fileHash := content];
      UpdateStagingArea(filePath, fileHash);
    }

    /**
     * `commit`, given the formatted time: snapshots the index and the old `HEAD`
     * into a record stored under the hash of its JSON text, moves `HEAD` to it
     * and empties the index. An empty index is committed like any other.
     */
    method Commit(message: string, timestamp: string) returns (commitHash: ContentId)
      requires Valid()
      modifies this
      ensures Valid()
      ensures var c := CommitRecord(timestamp, message, old(index), old(head));
        commitHash == hash(encode(c)) &&
        objects == old(objects)[commitHash := encode(c)] &&
        CommitData(objects, decode, commitHash) == Ok(c)
      ensures Extends(old(objects), objects)
      ensures head == commitHash && index == []
      ensures commits == old(commits) + [commitHash]
      ensures history == old(history) + [CommitRecord(timestamp, message, old(index), old(head))]
      ensures old(Resolved()) ==> Resolved()
    {
      var parentCommit := GetCurrentHead();
      var commitData := CommitRecord(timestamp, message, index, parentCommit);
      var text := encode(commitData);
      commitHash := hash(text);
      Put(objects, hash, text);
      ChainExtends(objects, objects[commitHash := text], encode, commits, history);
      objects := objects[commitHash := text];
      ChainGrows(objects, encode, commits, history, commitHash, commitData);
      head := commitHash;
      index := [];
      commits := commits + [commitHash];
      history := history + [commitData];
    }

    /**
     * In a repository built by `add` and `commit`, every entry of every commit
     * can be diffed: the commit reads back and `DiffSides` succeeds on it, so
     * `showCommitDiff` of any commit made succeeds.
     */
    lemma CommitsDiffable()
      requires Valid() && Resolved()
      ensures forall j :: 0 <= j < |commits| ==> CommitData(objects, decode, commits[j]) == Ok(history[j])
      ensures forall j, k :: 0 <= j < |history| && 0 <= k < |history[j].files| ==>
        DiffSides(objects, decode, history[j], history[j].files[k]).Ok?
    {
      forall j | 0 <= j < |commits|
        ensures CommitData(objects, decode, commits[j]) == Ok(history[j])
      {
        ChainReads(objects, encode, decode, commits, history, j);
      }
      forall j, k | 0 <= j < |history| && 0 <= k < |history[j].files|
        ensures DiffSides(objects, decode, history[j], history[j].files[k]).Ok?
      {
        var c := history[j];
        var f := c.files[k];
        ChainReads(objects, encode, decode, commits, history, j);
        if c.parent != "" {
          ChainReads(objects, encode, decode, commits, history, j - 1);
          var p := history[j - 1];
          assert CommitData(objects, decode, c.parent) == Ok(p);
          match FirstMatch(p.files, f.path)
          case None =>
          case Some(h) =>
            var i :| 0 <= i < |p.files| && p.files[i].path == f.path && p.files[i].hash == h;
            assert h in objects;
        }
      }
    }

    /**
     * `gitLog`: follows parent links from `HEAD` until the empty id. It visits
     * every commit made, most recent first, each parent being the next one
     * visited and the last one's parent "".
     */
    method GitLog() returns (log: seq<LogLine>)
      requires Valid()
      ensures |log| == |commits|
      ensures forall k :: 0 <= k < |log| ==>
        log[k].hash == commits[|commits| - 1 - k] &&
        CommitData(objects, decode, log[k].hash) == Ok(history[|commits| - 1 - k]) &&
        log[k].timestamp == history[|commits| - 1 - k].timestamp &&
        log[k].message == history[|commits| - 1 - k].message
      ensures forall k, next :: 0 <= k && next == k + 1 && next < |log| ==>
        CommitData(objects, decode, log[k].hash).value.parent == log[next].hash
      ensures |log| > 0 ==> CommitData(objects, decode, log[|log| - 1].hash).value.parent == ""
      ensures log == [] <==> head == ""
    {
      ChainTip(objects, encode, decode, commits, history);
      var currentCommitHash := GetCurrentHead();
      ghost var i := |commits|;
      log := [];
      while currentCommitHash != ""
        invariant 0 <= i <= |commits| && |log| == |commits| - i
        invariant currentCommitHash == if i == 0 then "" else commits[i - 1]
        invariant forall k :: 0 <= k < |log| ==>
          log[k] == LogLine(commits[|commits| - 1 - k], history[|commits| - 1 - k].timestamp,
                            history[|commits| - 1 - k].message)
        decreases i
      {
        ChainReads(objects, encode, decode, commits, history, i - 1);
        var commitData := CommitData(objects, decode, currentCommitHash).value;
        log := log + [LogLine(currentCommitHash, commitData.timestamp, commitData.message)];
        currentCommitHash := commitData.parent;
        i := i - 1;
      }
      forall k | 0 <= k < |log|
        ensures CommitData(objects, decode, log[k].hash) == Ok(history[|commits| - 1 - k]) &&
                history[|commits| - 1 - k].parent == if k + 1 < |log| then commits[|commits| - 2 - k] else ""
      {
        ChainReads(objects, encode, decode, commits, history, |commits| - 1 - k);
      }
    }

    /**
     * `showCommitDiff`: for every entry of the commit, in stored order, the
     * diff `DiffSides` selects, tagged line by line; the first unreadable
     * object ends it with that error.
     */
    method ShowCommitDiff(commitHash: ContentId,
                          splitLines: string -> seq<string>,
                          unifiedDiff: (seq<string>, seq<string>) -> seq<string>)
      returns (r: Result<seq<FileReport>>)
      ensures CommitData(objects, decode, commitHash).Err? ==> r == Err(CommitData(objects, decode, commitHash).error)
      ensures r.Ok? ==>
        CommitData(objects, decode, commitHash).Ok? &&
        var c := CommitData(objects, decode, commitHash).value;
        |r.value| == |c.files| &&
        forall k :: 0 <= k < |c.files| ==> Reports(objects, decode, c, c.files[k], r.value[k], splitLines, unifiedDiff)
      ensures CommitData(objects, decode, commitHash).Ok? ==>
        var c := CommitData(objects, decode, commitHash).value;
        (r.Ok? <==> forall k :: 0 <= k < |c.files| ==> DiffSides(objects, decode, c, c.files[k]).Ok?) &&
        (r.Err? ==> exists k :: 0 <= k < |c.files| && DiffSides(objects, decode, c, c.files[k]) == Err(r.error) &&
                              forall j :: 0 <= j < k ==> DiffSides(objects, decode, c, c.files[j]).Ok?)
    {
      var found := CommitData(objects, decode, commitHash);
      if found.Err? {
        return Err(found.error);
      }
      var commitData := found.value;
      var files := commitData.files;
      var reports: seq<FileReport> := [];
      for i := 0 to |files|
        invariant |reports| == i
        invariant forall k :: 0 <= k < i ==> Reports(objects, decode, commitData, files[k], reports[k], splitLines, unifiedDiff)
        invariant forall k :: 0 <= k < i ==> DiffSides(objects, decode, commitData, files[k]).Ok?
      {
        var file := files[i];
        var fileContent := FileData(objects, file.hash);
        if fileContent.Err? {
          assert DiffSides(objects, decode, commitData, files[i]) == Err(fileContent.error);
          return Err(fileContent.error);
        }
        var report;
        if commitData.parent != "" {
          var parentCommitData := CommitData(objects, decode, commitData.parent);
          if parentCommitData.Err? {
            assert DiffSides(objects, decode, commitData, files[i]) == Err(parentCommitData.error);
          return Err(parentCommitData.error);
          }
          var parentFileContent := ParentFileData(objects, parentCommitData.value, file.path);
          if parentFileContent.Err? {
            assert DiffSides(objects, decode, commitData, files[i]) == Err(parentFileContent.error);
          return Err(parentFileContent.error);
          }
          var lines;
          if parentFileContent.value.Some? && parentFileContent.value.value != "" {
            lines := ShowDiff(parentFileContent.value.value, fileContent.value, splitLines, unifiedDiff);
          } else {
            lines := ShowDiff("", fileContent.value, splitLines, unifiedDiff);
          }
          report := FileReport(file.path, Some(lines));
        } else {
          report := FileReport(file.path, None);
        }
        reports := reports + [report];
      }
      r := Ok(reports);
    }
  }
}
