/**
 * The JSON text of a commit record, as `json.dumps` writes it with its default
 * separators (", " and ": "), and the decoder `json.loads` applies to it.
 * Only the two-character string escapes are modelled (see README).
 */
module Json {
  import opened Results
  import opened Records
  import opened Store

  /** The character a two-character escape `\x` stands for. */
  function Unescape(x: char): Option<char> {
    if x == '"' then Some('"')
    else if x == '\\' then Some('\\')
    else if x == 'b' then Some('\U{0008}')
    else if x == 'f' then Some('\U{000C}')
    else if x == 'n' then Some('\n')
    else if x == 'r' then Some('\r')
    else if x == 't' then Some('\t')
    else None
  }

  function EscapeChar(c: char): (r: seq<char>)
    ensures |r| == 1 ==> r == [c] && c != '"' && c != '\\'
    ensures |r| == 2 ==> r[0] == '\\' && Unescape(r[1]) == Some(c)
    ensures |r| == 1 || |r| == 2
    ensures |r| == 2 <==> c in {'"', '\\', '\U{0008}', '\U{000C}', '\n', '\r', '\t'}
  {
    if c == '"' then ['\\', '"']
    else if c == '\\' then ['\\', '\\']
    else if c == '\U{0008}' then ['\\', 'b']
    else if c == '\U{000C}' then ['\\', 'f']
    else if c == '\n' then ['\\', 'n']
    else if c == '\r' then ['\\', 'r']
    else if c == '\t' then ['\\', 't']
    else [c]
  }

  function Escape(s: string): string {
    if s == [] then [] else EscapeChar(s[0]) + Escape(s[1..])
  }

  /** A JSON string literal. */
  function Quote(s: string): string {
    ['"'] + Escape(s) + ['"']
  }

  function EncodeEntry(e: IndexEntry): string {
    "{\"path\": " + (Quote(e.path) + (", \"hash\": " + (Quote(e.hash) + "}")))
  }

  /** The elements of a non-empty list and its closing bracket. */
  function EncodeItems(es: seq<IndexEntry>): string
    requires |es| > 0
  {
    EncodeEntry(es[0]) + if |es| == 1 then "]" else ", " + EncodeItems(es[1..])
  }

  function EncodeFiles(es: seq<IndexEntry>): string {
    "[" + if es == [] then "]" else EncodeItems(es)
  }

  /** `json.dumps(commitData)` */
  function EncodeCommit(c: CommitRecord): string {
    "{\"timestamp\": " + (Quote(c.timestamp)
      + (", \"message\": " + (Quote(c.message)
      + EncodeTail(c.files, c.parent))))
  }

  /** The files and parent members of a commit record and its closing brace. */
  function EncodeTail(files: seq<IndexEntry>, parent: ContentId): string {
    ", \"files\": " + (EncodeFiles(files)
      + (", \"parent\": " + (Quote(parent) + "}")))
  }

  /** Consumes the literal `lit` at the front of `t`. */
  function Expect(lit: string, t: seq<char>): (r: Option<seq<char>>)
    ensures r.Some? ==> |r.value| == |t| - |lit| && t == lit + r.value
  {
    if |lit| <= |t| && t[..|lit|] == lit then Some(t[|lit|..]) else None
  }

  /** The body of a string literal up to and including its closing quote: the decoded text and the rest. */
  function ParseChars(t: seq<char>): (r: Option<(string, seq<char>)>)
    ensures r.Some? ==> |r.value.1| < |t|
    decreases |t|
  {
    if |t| == 0 then None
    else if t[0] == '"' then Some(([], t[1..]))
    else if t[0] == '\\' then
      if |t| < 2 then None
      else
        var c :- Unescape(t[1]);
        var p :- ParseChars(t[2..]);
        Some(([c] + p.0, p.1))
    else if |EscapeChar(t[0])| == 2 then None  // a control character that must be escaped
    else
      var p :- ParseChars(t[1..]);
      Some(([t[0]] + p.0, p.1))
  }

  function ParseString(t: seq<char>): (r: Option<(string, seq<char>)>)
    ensures r.Some? ==> |r.value.1| < |t|
  {
    if |t| > 0 && t[0] == '"' then ParseChars(t[1..]) else None
  }

  /** A member `key` (given with its separators) followed by its string value. */
  function ParseField(key: string, t: seq<char>): (r: Option<(string, seq<char>)>)
    ensures r.Some? ==> |r.value.1| < |t|
  {
    var t1 :- Expect(key, t);
    ParseString(t1)
  }

  function ParseEntry(t: seq<char>): (r: Option<(IndexEntry, seq<char>)>)
    ensures r.Some? ==> |r.value.1| < |t|
  {
    var path :- ParseField("{\"path\": ", t);
    var hash :- ParseField(", \"hash\": ", path.1);
    var rest :- Expect("}", hash.1);
    Some((IndexEntry(path.0, hash.0), rest))
  }

  /** List elements after the opening bracket, through the closing one. */
  function ParseItems(t: seq<char>): (r: Option<(seq<IndexEntry>, seq<char>)>)
    ensures r.Some? ==> |r.value.1| < |t|
    decreases |t|
  {
    var e :- ParseEntry(t);
    var rest := e.1;
    if |rest| >= 2 && rest[..2] == ", " then
      var more :- ParseItems(rest[2..]);
      Some(([e.0] + more.0, more.1))
    else if |rest| >= 1 && rest[0] == ']' then Some(([e.0], rest[1..]))
    else None
  }

  function ParseFiles(t: seq<char>): (r: Option<(seq<IndexEntry>, seq<char>)>)
    ensures r.Some? ==> |r.value.1| < |t|
  {
    var t1 :- Expect("[", t);
    if |t1| >= 1 && t1[0] == ']' then Some(([], t1[1..])) else ParseItems(t1)
  }

  /** `json.loads` of a stored object, accepting only a whole commit record. */
  function DecodeCommit(t: seq<char>): Option<CommitRecord> {
    var timestamp :- ParseField("{\"timestamp\": ", t);
    var message :- ParseField(", \"message\": ", timestamp.1);
    var tail :- DecodeTail(message.1);
    Some(CommitRecord(timestamp.0, message.0, tail.0, tail.1))
  }

  /** The files and parent members, the closing brace, and nothing after it. */
  function DecodeTail(t: seq<char>): Option<(seq<IndexEntry>, ContentId)> {
    var t1 :- Expect(", \"files\": ", t);
    var files :- ParseFiles(t1);
    var parent :- ParseField(", \"parent\": ", files.1);
    var rest :- Expect("}", parent.1);
    if rest == [] then Some((files.0, parent.0)) else None
  }

  lemma ExpectLiteral(lit: string, rest: seq<char>)
    ensures Expect(lit, lit + rest) == Some(rest)
  {
    assert (lit + rest)[..|lit|] == lit;
    assert (lit + rest)[|lit|..] == rest;
  }

  lemma {:induction false} ParseEscaped(s: string, rest: seq<char>)
    ensures ParseChars(Escape(s) + ['"'] + rest) == Some((s, rest))
  {
    var t := Escape(s) + ['"'] + rest;
    if s == [] {
      assert t == ['"'] + rest;
      assert t[1..] == rest;
    } else {
      var tail := Escape(s[1..]) + ['"'] + rest;
      assert t == EscapeChar(s[0]) + tail;
      ParseEscaped(s[1..], rest);
      var e := EscapeChar(s[0]);
      if |e| == 1 {
        assert t[0] == s[0] && t[1..] == tail;
      } else {
        assert t[0] == '\\' && t[1] == e[1] && t[2..] == tail;
      }
      assert [s[0]] + s[1..] == s;
    }
  }

  lemma QuoteParses(s: string, rest: seq<char>)
    ensures ParseString(Quote(s) + rest) == Some((s, rest))
  {
    var t := Quote(s) + rest;
    assert t[1..] == Escape(s) + ['"'] + rest;
    ParseEscaped(s, rest);
  }

  lemma FieldParses(key: string, s: string, rest: seq<char>)
    ensures ParseField(key, key + (Quote(s) + rest)) == Some((s, rest))
  {
    ExpectLiteral(key, Quote(s) + rest);
    QuoteParses(s, rest);
  }

  lemma EntryParses(e: IndexEntry, rest: seq<char>)
    ensures ParseEntry(EncodeEntry(e) + rest) == Some((e, rest))
  {
    var r2 := "}" + rest;
    var r1 := ", \"hash\": " + (Quote(e.hash) + r2);
    assert EncodeEntry(e) + rest == "{\"path\": " + (Quote(e.path) + r1);
    FieldParses("{\"path\": ", e.path, r1);
    FieldParses(", \"hash\": ", e.hash, r2);
    ExpectLiteral("}", rest);
  }

  lemma LastItemParses(e: IndexEntry, rest: seq<char>)
    ensures ParseItems(EncodeEntry(e) + ("]" + rest)) == Some(([e], rest))
  {
    var after := "]" + rest;
    EntryParses(e, after);
    assert after[0] == ']' && after[1..] == rest;
    assert |after| >= 2 ==> after[..2][0] == ']';
  }

  lemma NextItemParses(e: IndexEntry, tail: seq<char>)
    ensures ParseItems(tail).Some? ==>
      ParseItems(EncodeEntry(e) + (", " + tail)) == Some(([e] + ParseItems(tail).value.0, ParseItems(tail).value.1))
  {
    var after := ", " + tail;
    EntryParses(e, after);
    assert after[..2] == ", " && after[2..] == tail;
  }

  lemma {:induction false} ItemsParse(es: seq<IndexEntry>, rest: seq<char>)
    requires |es| > 0
    ensures ParseItems(EncodeItems(es) + rest) == Some((es, rest))
  {
    if |es| == 1 {
      assert EncodeItems(es) + rest == EncodeEntry(es[0]) + ("]" + rest);
      LastItemParses(es[0], rest);
      assert [es[0]] == es;
    } else {
      assert [es[0]] + es[1..] == es;
      ItemsCons(es[0], es[1..], rest);
      ItemsParse(es[1..], rest);
      NextItemParses(es[0], EncodeItems(es[1..]) + rest);
    }
  }

  lemma FilesParse(es: seq<IndexEntry>, rest: seq<char>)
    ensures ParseFiles(EncodeFiles(es) + rest) == Some((es, rest))
  {
    if es == [] {
      assert EncodeFiles(es) + rest == "[" + ("]" + rest);
      ExpectLiteral("[", "]" + rest);
      assert ("]" + rest)[1..] == rest;
    } else {
      assert EncodeFiles(es) + rest == "[" + (EncodeItems(es) + rest);
      ExpectLiteral("[", EncodeItems(es) + rest);
      ItemsParse(es, rest);
    }
  }

  lemma TailDecodes(files: seq<IndexEntry>, parent: ContentId)
    ensures DecodeTail(EncodeTail(files, parent)) == Some((files, parent))
  {
    var r3: seq<char> := "}";
    var r2 := ", \"parent\": " + (Quote(parent) + r3);
    var r1 := EncodeFiles(files) + r2;
    ExpectLiteral(", \"files\": ", r1);
    FilesParse(files, r2);
    FieldParses(", \"parent\": ", parent, r3);
    ExpectLiteral("}", []);
    assert r3 == "}" + [];
  }

  /** `json.loads(json.dumps(c))` gives back `c`. */
  lemma DecodeEncode(c: CommitRecord)
    ensures DecodeCommit(EncodeCommit(c)) == Some(c)
  {
    var r2 := EncodeTail(c.files, c.parent);
    var r1 := ", \"message\": " + (Quote(c.message) + r2);
    FieldParses("{\"timestamp\": ", c.timestamp, r1);
    FieldParses(", \"message\": ", c.message, r2);
    TailDecodes(c.files, c.parent);
  }

  /** A two-character escape is the one `EscapeChar` writes for the character it stands for. */
  lemma EscapeOfUnescape(x: char)
    requires Unescape(x).Some?
    ensures EscapeChar(Unescape(x).value) == ['\\', x]
  {
  }

  /** What `ParseChars` accepts is the escaped text it returns, the closing quote and the rest. */
  lemma {:induction false} CharsExact(t: seq<char>)
    requires ParseChars(t).Some?
    ensures t == Escape(ParseChars(t).value.0) + ['"'] + ParseChars(t).value.1
    decreases |t|
  {
    var s := ParseChars(t).value.0;
    if t[0] == '"' {
      assert t == ['"'] + t[1..];
    } else if t[0] == '\\' {
      var p := ParseChars(t[2..]).value;
      CharsExact(t[2..]);
      EscapeOfUnescape(t[1]);
      assert s[1..] == p.0;
      assert t == ['\\', t[1]] + t[2..];
    } else {
      var p := ParseChars(t[1..]).value;
      CharsExact(t[1..]);
      assert s[1..] == p.0;
      assert t == [t[0]] + t[1..];
    }
  }

  lemma FieldExact(key: string, t: seq<char>)
    requires ParseField(key, t).Some?
    ensures t == key + (Quote(ParseField(key, t).value.0) + ParseField(key, t).value.1)
  {
    var t1 := Expect(key, t).value;
    CharsExact(t1[1..]);
    assert t1 == ['"'] + t1[1..];
  }

  lemma EntryExact(t: seq<char>)
    requires ParseEntry(t).Some?
    ensures t == EncodeEntry(ParseEntry(t).value.0) + ParseEntry(t).value.1
  {
    var path := ParseField("{\"path\": ", t).value;
    var hash := ParseField(", \"hash\": ", path.1).value;
    FieldExact("{\"path\": ", t);
    FieldExact(", \"hash\": ", path.1);
  }

  lemma Associative(a: seq<char>, b: seq<char>, c: seq<char>)
    ensures (a + b) + c == a + (b + c)
  {
  }

  /** The encoding of a list of two or more entries, as its first entry, a comma and the others. */
  lemma ItemsCons(e: IndexEntry, es: seq<IndexEntry>, rest: seq<char>)
    requires |es| > 0
    ensures EncodeItems([e] + es) + rest == EncodeEntry(e) + (", " + (EncodeItems(es) + rest))
  {
    var all := [e] + es;
    assert all[0] == e && all[1..] == es && |all| != 1;
    Associative(EncodeEntry(e), ", " + EncodeItems(es), rest);
    Associative(", ", EncodeItems(es), rest);
  }

  /** An entry, a comma and the encoding of further entries make the encoding of the longer list. */
  lemma JoinItems(t: seq<char>, e: IndexEntry, rest: seq<char>, es: seq<IndexEntry>, after: seq<char>)
    requires |es| > 0 && t == EncodeEntry(e) + rest && rest == ", " + (EncodeItems(es) + after)
    ensures t == EncodeItems([e] + es) + after
  {
    ItemsCons(e, es, after);
  }

  /** An entry and the closing bracket make the encoding of a one-entry list. */
  lemma CloseItems(t: seq<char>, e: IndexEntry, rest: seq<char>)
    requires t == EncodeEntry(e) + rest && |rest| >= 1 && rest[0] == ']'
    ensures t == EncodeItems([e]) + rest[1..]
  {
    assert rest == "]" + rest[1..];
    Associative(EncodeEntry(e), "]", rest[1..]);
  }

  /** What `ParseItems` accepts is the encoding of the entries it returns, then the rest. */
  lemma {:induction false} ItemsExact(t: seq<char>)
    ensures ParseItems(t).Some? ==>
      |ParseItems(t).value.0| > 0 && t == EncodeItems(ParseItems(t).value.0) + ParseItems(t).value.1
    decreases |t|
  {
    if ParseItems(t).None? {
      return;
    }
    var e := ParseEntry(t).value;
    var rest := e.1;
    EntryExact(t);
    if |rest| >= 2 && rest[..2] == ", " {
      var tail := rest[2..];
      ItemsExact(tail);
      var more := ParseItems(tail).value;
      assert ParseItems(t).value == ([e.0] + more.0, more.1);
      assert rest == ", " + tail;
      JoinItems(t, e.0, rest, more.0, more.1);
    } else {
      assert ParseItems(t).value == ([e.0], rest[1..]);
      CloseItems(t, e.0, rest);
    }
  }

  lemma FilesExact(t: seq<char>)
    requires ParseFiles(t).Some?
    ensures t == EncodeFiles(ParseFiles(t).value.0) + ParseFiles(t).value.1
  {
    var t1 := Expect("[", t).value;
    if |t1| >= 1 && t1[0] == ']' {
      assert t1 == "]" + t1[1..];
    } else {
      ItemsExact(t1);
    }
  }

  lemma TailExact(t: seq<char>)
    requires DecodeTail(t).Some?
    ensures t == EncodeTail(DecodeTail(t).value.0, DecodeTail(t).value.1)
  {
    var t1 := Expect(", \"files\": ", t).value;
    var files := ParseFiles(t1).value;
    var parent := ParseField(", \"parent\": ", files.1).value;
    FilesExact(t1);
    FieldExact(", \"parent\": ", files.1);
  }

  /** `json.loads` accepts only the text `json.dumps` writes for the record it returns. */
  lemma EncodeDecode(t: seq<char>)
    requires DecodeCommit(t).Some?
    ensures EncodeCommit(DecodeCommit(t).value) == t
  {
    var timestamp := ParseField("{\"timestamp\": ", t).value;
    var message := ParseField(", \"message\": ", timestamp.1).value;
    FieldExact("{\"timestamp\": ", t);
    FieldExact(", \"message\": ", timestamp.1);
    TailExact(message.1);
  }

  /** This encoder and decoder are a codec in the sense the repository assumes. */
  lemma JsonIsCodec()
    ensures IsCodec(EncodeCommit, DecodeCommit)
  {
    forall c: CommitRecord
      ensures DecodeCommit(EncodeCommit(c)) == Some(c)
    {
      DecodeEncode(c);
    }
  }
}
