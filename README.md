# Gitlet in Dafny

A model of the `Gitlet` class of `gitlet.py`, a small content-addressed version store:

- an object store that maps a content hash to the stored text;
- a staging index, an ordered list of `{path, hash}` entries;
- `HEAD`, the id of the latest commit, or the empty string before the first commit.

`add` stores a file's text under its hash and stages it. `commit` snapshots the index, together with a timestamp, the message and the old `HEAD`, into a commit record. The record is stored under the hash of its JSON text; `HEAD` then moves to it and the index is emptied. `gitLog` follows `parent` links from `HEAD`. `showCommitDiff` diffs every file of a commit against the first entry with the same path in the parent commit, and tags every diff line by its first character.

Modules, leaves first:

- `Results` (results.dfy): `Option` and `Result`. The error kinds are `NotFound` (no object under an id) and `CorruptData` (an object that does not decode to a commit record).
- `Records` (records.dfy): `IndexEntry` and `CommitRecord`.
- `Store` (store.dfy): the object store as a map and the read-only lookups `getFileData`, `getCommitData` and `getParentFileData`. It also holds the history invariant `Chain` and the lemmas about how the store grows.
- `Json` (json.dfy): the JSON text `json.dumps` writes for a commit record, a decoder for it, and the proof that decoding gives the record back.
- `Diff` (diff.dfy): the line tagging of `show_diff_termcolor`, and `DiffSides`, which gives the pair of texts `showCommitDiff` diffs for one entry.
- `Repository` (gitlet.dfy): the class `Gitlet`. `objects`, `index` and `head` are fields that its methods update in place. The ghost fields `commits` and `history` record the commits made so far.
- `Scenarios` (scenarios.dfy): short client sessions whose outcome is proved from the class's contracts alone.

`hash_Object` (SHA-1), `json.dumps`/`json.loads` of a commit record, `str.splitlines(keepends=True)` and `difflib.unified_diff` are parameters:

- the hash is a `const` of the class, assumed injective and never empty (`Store.IsDigest`);
- the encoder and decoder are a pair of `const`s, assumed to round-trip (`Store.IsCodec`);
- the two diff functions are arguments of `ShowDiff` and `ShowCommitDiff`.

`Json.JsonIsCodec` proves that the concrete JSON encoder and decoder meet `IsCodec`, and `Store.DigestExists` exhibits a function that meets `IsDigest`, so both assumptions can be met.

The class invariant `Valid()` says:

- the store is content-addressed;
- the ghost `commits` are stored, in order, as the encodings of the ghost `history` records;
- each record's parent is the commit before it, and the first record's parent is `""`;
- `head` is the last of `commits`.

From this invariant, `GitLog` is proved to terminate and to visit exactly the commits made, most recent first.

A second predicate, `Resolved()`, says that every staged entry and every entry of every commit names a stored object. The constructor establishes it, and `Add` and `Commit` preserve it. `UpdateStagingArea` preserves it only when the staged hash is stored, because the source stages any hash it is given. Under both predicates, `CommitsDiffable` proves that every commit made reads back and that every one of its entries can be diffed, so `showCommitDiff` of any commit made succeeds.

A missing object is a crash in the source; here, every read returns `Err(NotFound(id))`, and an object that does not decode returns `Err(CorruptData(id))`.

Behaviours of the code that the model keeps:

- The root commit's parent is `""`, not an absent value. `HEAD` is created empty (gitlet.py:28) and read back as text (gitlet.py:75). The `while` at gitlet.py:82 and the `if` at gitlet.py:98 treat `""` as "no parent".
- When a path was staged several times, the parent-file lookup takes the FIRST matching entry (gitlet.py:111-113), not the most recent one.
- A commit without a parent shows no diff at all (the `if` at gitlet.py:98 has no `else`).
- A parent text that is present but empty is diffed as `""` (gitlet.py:102-106). That is the same text, so nothing is lost.

## Model

| member | source | states |
|---|---|---|
| Repository.Gitlet.constructor | gitlet.py:18-30 | a new repository satisfies the invariant and `Resolved`, with an empty store, an empty index, `HEAD` equal to `""` and no commits |
| Repository.Gitlet.Init | gitlet.py:25-30 | `init` leaves an existing index as it was (it rewrites `[]` only over a missing or empty index); the frame keeps the store and `HEAD` untouched |
| Repository.Gitlet.GetCurrentHead | gitlet.py:73-78 | `HEAD` is `""` exactly when no commit has been made; otherwise it is the latest commit, and reading it gives that commit's record |
| Repository.Gitlet.UpdateStagingArea | gitlet.py:48-52 | exactly one entry `(path, hash)` is appended at the end of the index; earlier entries stay, with no deduplication; every entry still names a stored object when the new hash is stored |
| Repository.Gitlet.Add | gitlet.py:35-46 | the content is stored under `hash(content)`; every existing object is kept, and re-adding stored content leaves the store unchanged; `getFileData` then returns exactly the content; the entry is staged; the invariant and `Resolved` are preserved |
| Repository.Gitlet.Commit | gitlet.py:54-70 | the record holds the old index as `files` and the old `HEAD` as `parent`; it is stored under the hash of its encoding and reads back as itself; the store only grows; `HEAD` becomes the new id; the index becomes empty; the history grows by this commit; the invariant and `Resolved` are preserved |
| Repository.Gitlet.CommitsDiffable | gitlet.py:89-106 | in a repository built by `add` and `commit`, every commit made reads back as its record and `DiffSides` succeeds on every one of its entries, so `showCommitDiff` on it succeeds |
| Repository.Gitlet.GitLog | gitlet.py:80-87 | the walk terminates; it visits every commit made, most recent first, with each one's timestamp and message; each commit's parent is the next one visited and the last one's parent is `""`; nothing is visited exactly when `HEAD` is `""` |
| Repository.Gitlet.ShowCommitDiff | gitlet.py:89-106 | an unreadable commit is an error; otherwise it gives one report per file, in stored order, each the tagged diff of the pair `DiffSides` selects (no diff when there is no parent); it succeeds exactly when every file's pair can be read, and a failure carries the error of the first entry, in stored order, whose pair cannot be read |
| Store.DigestExists | gitlet.py:32-33 | a function that never collides and never yields `""` exists, so the constructor's assumption on `hash_Object` can be met |
| Store.FileData | gitlet.py:138-140 | the stored text exactly when the id is in the store, `NotFound` otherwise |
| Store.CommitData | gitlet.py:134-136 | exactly the decoded record when the id is stored and its text decodes, and a record only then; `NotFound` for a missing id, `CorruptData` for text that does not decode |
| Store.FirstMatch | gitlet.py:109-114 | `None` exactly when no entry has the path; otherwise the hash of the first entry with that path, with no earlier entry matching |
| Store.ParentFileData | gitlet.py:109-114 | the text of the first entry with the path, or `None` exactly when no entry has it; a missing object for that entry is `NotFound` |
| Store.FirstMatchIgnoresLater | gitlet.py:109-114 | entries appended after the first match for a path never change what the lookup finds |
| Store.Put | gitlet.py:32-41 | storing content under its hash keeps every object and keeps the store content-addressed; it is a no-op when the content is already stored, and the content reads back |
| Store.ChainTip | gitlet.py:73-78 | in a valid history no commit id is `""`; the tip is `""` exactly when there are no commits; the tip reads back as the last record |
| Store.ChainReads | gitlet.py:80-86 | every commit of a valid history reads back as its record, and its parent is the commit before it (`""` for the first) |
| Store.ChainExtends | gitlet.py:39-41 | a valid history stays valid when objects are only added to the store |
| Store.ChainGrows | gitlet.py:54-68 | storing a record whose parent is the old `HEAD`, under a non-empty id, extends the history by exactly that commit |
| Store.CommitDataExtends | gitlet.py:134-136 | a commit that was readable reads the same after the store grows |
| Diff.Tag | gitlet.py:124-132 | a line is tagged added, removed or header exactly when it starts with `+`, `-` or `@`, and context exactly when it starts with none of them |
| Diff.FileHeadersTagged | gitlet.py:117-132 | the `---` and `+++` file headers of a unified diff are tagged removed and added, and `@@` hunk headers are tagged header |
| Diff.ShowDiff | gitlet.py:116-132 | the output is every line of the unified diff of the two texts' lines, in order, each with the tag of its first character |
| Diff.DiffSides | gitlet.py:94-106 | the entry's own text is read first, so a missing entry object is `NotFound` of that object whatever the parent; then an unreadable parent commit gives its error, and a first-match entry of the parent whose object is missing gives `NotFound` of that object; with no parent there is nothing to diff; with a parent, the "before" text is the first-match text in the parent, or `""` when the parent has no entry for the path; it succeeds exactly when the parent lookup succeeds |
| Json.EscapeChar | gitlet.py:65-67 | a quote, a backslash, backspace, form feed, newline, carriage return and tab, and exactly these, are written as a backslash and a letter that decodes back to the character; every other character is written as itself |
| Json.EncodeCommit | gitlet.py:58-65 | `json.dumps` of a commit record with the default separators; `Json.DecodeEncode` states that it decodes back to the record |
| Json.DecodeCommit | gitlet.py:134-136 | `json.loads` of a stored object, succeeding only on a whole commit record; `Json.EncodeDecode` states that it accepts exactly the encodings of records |
| Json.ParseEscaped | gitlet.py:65-67 | an escaped string body followed by the closing quote decodes to the original string, leaving the rest of the text |
| Json.QuoteParses | gitlet.py:65-67 | a JSON string literal decodes to its string |
| Json.EntryParses | gitlet.py:49-52 | the JSON object of an index entry decodes to that entry |
| Json.ItemsParse | gitlet.py:49-52 | a non-empty list of index entries decodes to the same list |
| Json.FilesParse | gitlet.py:58-65 | the `files` list of a commit decodes to the same entries, including the empty list |
| Json.TailDecodes | gitlet.py:58-65 | the `files` and `parent` members and the closing brace decode to those values, with nothing left over |
| Json.DecodeEncode | gitlet.py:65-67 | loading the JSON text of any commit record gives the record back |
| Json.CharsExact | gitlet.py:134-136 | a string body the decoder accepts is exactly the escaped text of the string it returns, then the closing quote |
| Json.FieldExact | gitlet.py:134-136 | an accepted member is exactly the key followed by the string literal of its value |
| Json.EntryExact | gitlet.py:134-136 | an accepted index entry is exactly the encoding of the entry returned |
| Json.ItemsExact | gitlet.py:134-136 | an accepted list of entries is non-empty and is exactly the encoding of the entries returned |
| Json.FilesExact | gitlet.py:134-136 | an accepted `files` list, including `[]`, is exactly the encoding of the entries returned |
| Json.TailExact | gitlet.py:134-136 | accepted `files` and `parent` members are exactly their encoding |
| Json.EncodeDecode | gitlet.py:134-136 | any text the decoder accepts is exactly the JSON text of the record it returns, so the codec is a bijection between records and their texts |
| Json.JsonIsCodec | gitlet.py:65-67 | the JSON encoder and decoder form a round-trip pair, as the class assumes |
| Scenarios.FreshRepositoryLog | gitlet.py:80-87 | on a fresh repository the log visits no commit |
| Scenarios.TwoCommitLog | gitlet.py:54-87 | after commits "first" and "second", the log lists exactly "second" then "first", and nothing else; "second"'s parent is "first", and "first"'s parent is `""` |
| Scenarios.CommitVersions | gitlet.py:35-70 | two commits in a row store each record with the files staged since the previous commit and the previous commit as parent, and keep every staged text readable |
| Scenarios.UpdateDiff | gitlet.py:89-106 | committing `a.txt` as "hello\n" and then as "hello\nworld\n" gives one report, the tagged diff of exactly those two texts |
| Scenarios.DuplicateStagingDiff | gitlet.py:109-114 | when the parent staged `a.txt` twice, the child's diff is against the first staged text |

## Left out

- Filesystem I/O (`pathlib`, `open`, `mkdir`, `touch`, `write_bytes`), and text-mode newline translation on reading: the store, the index and `HEAD` are fields of the object.
- The index file's own JSON (`json.load`/`json.dump` at gitlet.py:49-52, 55, 69): the index field holds the entries themselves, so the model relies on that file reading back as what was written.
- Reopening a repository directory that already holds data: the constructor models `__init__` on a fresh directory. `Init` models `init` on an existing one.
- `print` and the `termcolor` colours: each diff line carries its tag instead, and `gitLog` returns the lines it would print.
- The command-line dispatch under `__main__` (gitlet.py:148-168) and the unused `readline` import.
- SHA-1 itself: `hash` is a parameter assumed injective and never empty. The 40-hex-digit form of the digest and collisions are not modelled.
- `datetime.now()`: `Commit` takes the formatted timestamp as a parameter.
- `str.splitlines(keepends=True)` and `difflib.unified_diff`: uninterpreted parameters. `ShowDiff` is therefore proved to tag whatever lines the diff yields, not that those lines are correct.
- Json.EscapeChar, Json.EncodeCommit: `json.dumps` also writes `\uXXXX` for the other control characters and, by default, for every non-ASCII character; only the two-character escapes are modelled. The class does not depend on this, because it only assumes a round-trip pair.
- Exceptions: a missing or undecodable object is an `Err` result instead of a crash. The bare `except` of `getCurrentHead` (gitlet.py:76-78) cannot fire once `init` has created `HEAD`, so it is not modelled.
- `if not commitData` in `showCommitDiff` (gitlet.py:91-93): `getCommitData` decodes whatever object is stored under the id. If that object's text is any falsy JSON value (`{}`, `[]`, `""`, a zero number, `false`, `null`), the source prints "Commit Not Found" and returns normally. The model returns `Err(CorruptData(id))` for it, because the decoder yields only commit records in the exact layout `json.dumps` writes. A JSON object with a list-valued `files` member is walked as a commit by the source, but is `CorruptData` here. This includes a commit record written with other whitespace or key order. Other non-commit JSON crashes the source, except an object whose `files` is `{}` or `""`, which it walks as a commit with no files; the model gives `CorruptData` for those too.
- Json.DecodeCommit: strict `json.loads` rejects every raw control character inside a string. The decoder rejects only the five that have a two-character escape, since the `\uXXXX` form for the others is not modelled. It also accepts no whitespace or member order other than what `json.dumps` writes.
- Repository.Gitlet.GitLog: requires the class invariant. On a store corrupted from outside, the source would crash or loop, and those runs are not modelled.
- Concurrent use of one repository by several processes.
