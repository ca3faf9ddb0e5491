/**
 * Short client sessions of the `Gitlet` class, whose outcome is proved from
 * the class's contracts alone.
 */
module Scenarios {
  import opened Results
  import opened Records
  import opened Store
  import opened Diff
  import opened Repository

  /** On a fresh repository `gitLog` visits nothing. */
  method FreshRepositoryLog(hash: string -> ContentId, encode: CommitRecord -> string,
                            decode: string -> Option<CommitRecord>)
    returns (log: seq<LogLine>)
    requires IsDigest(hash) && IsCodec(encode, decode)
    ensures log == []
  {
    var repo := new Gitlet(hash, encode, decode);
    log := repo.GitLog();
  }

  /** Commits "first" then "second": the log lists "second", then "first", linked by `parent`. */
  method TwoCommitLog(hash: string -> ContentId, encode: CommitRecord -> string,
                      decode: string -> Option<CommitRecord>, time1: string, time2: string)
    returns (messages: seq<string>, linked: bool)
    requires IsDigest(hash) && IsCodec(encode, decode)
    ensures messages == ["second", "first"] && linked
  {
    var repo := new Gitlet(hash, encode, decode);
    var first := repo.Commit("first", time1);
    var second := repo.Commit("second", time2);
    var log := repo.GitLog();
    messages := seq(|log|, k requires 0 <= k < |log| => log[k].message);
    var top := CommitData(repo.objects, repo.decode, log[0].hash);
    var bottom := CommitData(repo.objects, repo.decode, log[1].hash);
    linked := top.Ok? && top.value.parent == first && bottom.Ok? && bottom.value.parent == "";
  }

  /**
   * Two commits of `a.txt`: the parent stages `older` and then `old2` (the
   * same text again when `old2 == older`), the child stages `newer` only.
   * Returns the repository and both commit ids, with what is stored under them.
   */
  method CommitVersions(hash: string -> ContentId, encode: CommitRecord -> string,
                        decode: string -> Option<CommitRecord>, time1: string, time2: string,
                        older: string, old2: string, newer: string)
    returns (repo: Gitlet, parentFiles: seq<IndexEntry>, first: ContentId, second: ContentId)
    requires IsDigest(hash) && IsCodec(encode, decode)
    ensures repo.Valid() && repo.decode == decode
    ensures parentFiles == [IndexEntry("a.txt", hash(older)), IndexEntry("a.txt", hash(old2))]
    ensures first != "" && CommitData(repo.objects, decode, first) == Ok(CommitRecord(time1, "first", parentFiles, ""))
    ensures CommitData(repo.objects, decode, second)
            == Ok(CommitRecord(time2, "second", [IndexEntry("a.txt", hash(newer))], first))
    ensures hash(older) in repo.objects && repo.objects[hash(older)] == older
    ensures hash(old2) in repo.objects && repo.objects[hash(old2)] == old2
    ensures hash(newer) in repo.objects && repo.objects[hash(newer)] == newer
  {
    repo := new Gitlet(hash, encode, decode);
    var v1 := repo.Add("a.txt", older);
    ghost var store0 := repo.objects;
    var v2 := repo.Add("a.txt", old2);
    parentFiles := repo.index;
    assert parentFiles == [IndexEntry("a.txt", hash(older)), IndexEntry("a.txt", hash(old2))];
    first := repo.Commit("first", time1);
    ghost var store1 := repo.objects;
    var v3 := repo.Add("a.txt", newer);
    ghost var store2 := repo.objects;
    assert repo.index == [IndexEntry("a.txt", hash(newer))] && repo.head == first;
    second := repo.Commit("second", time2);
    CommitDataExtends(store1, repo.objects, decode, first);
    assert Extends(store0, repo.objects);
    assert Extends(store2, repo.objects);
  }

  /**
   * `a.txt` is committed as "hello\n", then as "hello\nworld\n": the diff of the
   * second commit compares exactly those two texts.
   */
  method UpdateDiff(hash: string -> ContentId, encode: CommitRecord -> string,
                    decode: string -> Option<CommitRecord>, time1: string, time2: string,
                    splitLines: string -> seq<string>,
                    unifiedDiff: (seq<string>, seq<string>) -> seq<string>)
    returns (r: Result<seq<FileReport>>)
    requires IsDigest(hash) && IsCodec(encode, decode)
    ensures r.Ok? && |r.value| == 1 && r.value[0].path == "a.txt" && r.value[0].diff.Some?
    ensures Tagged(r.value[0].diff.value, unifiedDiff(splitLines("hello\n"), splitLines("hello\nworld\n")))
  {
    var repo, parentFiles, first, second :=
      CommitVersions(hash, encode, decode, time1, time2, "hello\n", "hello\n", "hello\nworld\n");
    var c := CommitRecord(time2, "second", [IndexEntry("a.txt", hash("hello\nworld\n"))], first);
    assert FirstMatch(parentFiles, "a.txt") == Some(hash("hello\n"));
    assert DiffSides(repo.objects, decode, c, c.files[0]) == Ok(Some(("hello\n", "hello\nworld\n")));
    r := repo.ShowCommitDiff(second, splitLines, unifiedDiff);
  }

  /**
   * `a.txt` staged twice in the parent, as "hello\n" and then "hello\nworld\n":
   * the child's diff compares against the FIRST of them.
   */
  method DuplicateStagingDiff(hash: string -> ContentId, encode: CommitRecord -> string,
                              decode: string -> Option<CommitRecord>, time1: string, time2: string,
                              splitLines: string -> seq<string>,
                              unifiedDiff: (seq<string>, seq<string>) -> seq<string>)
    returns (r: Result<seq<FileReport>>)
    requires IsDigest(hash) && IsCodec(encode, decode)
    ensures r.Ok? && |r.value| == 1 && r.value[0].diff.Some?
    ensures Tagged(r.value[0].diff.value, unifiedDiff(splitLines("hello\n"), splitLines("bye\n")))
  {
    var repo, parentFiles, first, second :=
      CommitVersions(hash, encode, decode, time1, time2, "hello\n", "hello\nworld\n", "bye\n");
    var c := CommitRecord(time2, "second", [IndexEntry("a.txt", hash("bye\n"))], first);
    assert FirstMatch(parentFiles, "a.txt") == Some(hash("hello\n"));
    assert DiffSides(repo.objects, decode, c, c.files[0]) == Ok(Some(("hello\n", "bye\n")));
    r := repo.ShowCommitDiff(second, splitLines, unifiedDiff);
  }
}
