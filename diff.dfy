/**
 * What `showCommitDiff` diffs and how `show_diff_termcolor` tags each line of
 * the diff. `splitlines(keepends=True)` and `difflib.unified_diff` are foreign
 * library behaviour: they are the parameters `splitLines` and `unifiedDiff`.
 */
module Diff {
  import opened Results
  import opened Records
  import opened Store

  /** The colour class a diff line is printed in: green, red, cyan or default. */
  datatype LineTag = Added | Removed | Header | Context

  datatype TaggedLine = TaggedLine(tag: LineTag, text: string)

  /** The report for one file of a commit: no diff at all when the commit has no parent. */
  datatype FileReport = FileReport(path: string, diff: Option<seq<TaggedLine>>)

  predicate StartsWith(line: string, c: char) {
    |line| > 0 && line[0] == c
  }

  /** The prefix test of `show_diff_termcolor`: the first character alone decides the tag. */
  function Tag(line: string): (t: LineTag)
    ensures t == Added <==> StartsWith(line, '+')
    ensures t == Removed <==> StartsWith(line, '-')
    ensures t == Header <==> StartsWith(line, '@')
    ensures t == Context <==> !StartsWith(line, '+') && !StartsWith(line, '-') && !StartsWith(line, '@')
  {
    if StartsWith(line, '+') then Added
    else if StartsWith(line, '-') then Removed
    else if StartsWith(line, '@') then Header
    else Context
  }

  /** The `---` and `+++` file headers of a unified diff are tagged removed and added. */
  lemma FileHeadersTagged(rest: string)
    ensures Tag("---" + rest) == Removed && Tag("+++" + rest) == Added && Tag("@@" + rest) == Header
  {
  }

  /** `out` is `lines`, in order, each with the tag of its first character. */
  ghost predicate Tagged(out: seq<TaggedLine>, lines: seq<string>) {
    |out| == |lines| && forall k :: 0 <= k < |lines| ==> out[k] == TaggedLine(Tag(lines[k]), lines[k])
  }

  /** `show_diff_termcolor`: diffs the two texts line by line and tags every output line. */
  method ShowDiff(parentContent: string, currentContent: string,
                  splitLines: string -> seq<string>,
                  unifiedDiff: (seq<string>, seq<string>) -> seq<string>)
    returns (out: seq<TaggedLine>)
    ensures Tagged(out, unifiedDiff(splitLines(parentContent), splitLines(currentContent)))
  {
    var diff := unifiedDiff(splitLines(parentContent), splitLines(currentContent));
    out := [];
    for i := 0 to |diff|
      invariant Tagged(out, diff[..i])
    {
      out := out + [TaggedLine(Tag(diff[i]), diff[i])];
    }
    assert diff[..|diff|] == diff;
  }

  /**
   * The two texts `showCommitDiff` hands to `show_diff_termcolor` for entry `f`
   * of commit `c` (before, after), or `None` when `c` has no parent and nothing
   * is diffed. The entry's own content is read first in either case.
   */
  function DiffSides(store: Objects, decode: string -> Option<CommitRecord>, c: CommitRecord, f: IndexEntry)
    : (r: Result<Option<(string, string)>>)
    ensures f.hash !in store ==> r == Err(NotFound(f.hash))
    ensures c.parent == "" ==> r == if f.hash in store then Ok(None) else Err(NotFound(f.hash))
    ensures f.hash in store && c.parent != "" && CommitData(store, decode, c.parent).Err? ==>
      r == Err(CommitData(store, decode, c.parent).error)
    ensures c.parent != "" && f.hash in store && CommitData(store, decode, c.parent).Ok? &&
            ParentFileData(store, CommitData(store, decode, c.parent).value, f.path).Err? ==>
      r == Err(ParentFileData(store, CommitData(store, decode, c.parent).value, f.path).error)
    ensures r.Ok? ==> f.hash in store && (r.value.None? <==> c.parent == "")
    ensures r.Ok? && c.parent != "" ==>
      CommitData(store, decode, c.parent).Ok? && r.value.Some? && r.value.value.1 == store[f.hash]
    ensures r.Ok? && c.parent != "" && FirstMatch(CommitData(store, decode, c.parent).value.files, f.path).None? ==>
      r.value.value.0 == ""
    ensures r.Ok? && c.parent != "" && FirstMatch(CommitData(store, decode, c.parent).value.files, f.path).Some? ==>
      var h := FirstMatch(CommitData(store, decode, c.parent).value.files, f.path).value;
      h in store && r.value.value.0 == store[h]
    ensures c.parent != "" && f.hash in store && CommitData(store, decode, c.parent).Ok? ==>
      (r.Ok? <==> ParentFileData(store, CommitData(store, decode, c.parent).value, f.path).Ok?)
  {
    if f.hash !in store then Err(NotFound(f.hash))
    else if c.parent == "" then Ok(None)
    else match CommitData(store, decode, c.parent)
      case Err(e) => Err(e)
      case Ok(parent) =>
        match ParentFileData(store, parent, f.path)
        case Err(e) => Err(e)
        case Ok(None) => Ok(Some(("", store[f.hash])))
        // a falsy "" content also falls back to "", which is the same text
        case Ok(Some(content)) =>
          assert FirstMatch(parent.files, f.path).Some?;
          Ok(Some((content, store[f.hash])))
  }

  /** `report` is what `showCommitDiff` produces for entry `f` of `c`. */
  ghost predicate Reports(store: Objects, decode: string -> Option<CommitRecord>, c: CommitRecord, f: IndexEntry, report: FileReport,
                          splitLines: string -> seq<string>,
                          unifiedDiff: (seq<string>, seq<string>) -> seq<string>)
  {
    report.path == f.path && DiffSides(store, decode, c, f).Ok? &&
    match DiffSides(store, decode, c, f).value
    case None => report.diff.None?
    case Some(sides) =>
      report.diff.Some? && Tagged(report.diff.value, unifiedDiff(splitLines(sides.0), splitLines(sides.1)))
  }
}
