/**
 * api/get_memory.py: the shared and per-user memory logs, one JSON object per
 * line, searched by a case-insensitive substring and appended to.
 */
module Memory {
  import opened Wrappers
  import opened Strings

  /** A log record: `{"ts": ..., "text": ...}`, either key possibly absent. */
  datatype Entry = Entry(ts: Option<string>, text: Option<string>)

  /** `item.get("text", "")`. */
  function TextOf(e: Entry): string {
    e.text.GetOr([])
  }

  /** Whether a line is skipped when reading: `line.strip()` is empty, that is, it is all whitespace. */
  predicate Blank(line: string) {
    AllSpace(line)
  }

  /** `Blank` is the test the source writes. */
  lemma BlankIsStripEmpty(line: string)
    ensures Blank(line) <==> Strip(line) == []
  {
    StripBlank(line);
  }

  /**
   * `_load_jsonl`: a missing file has no records; otherwise every non-blank line
   * is decoded with `decode`, which stands for `json.loads`.
   */
  function LoadJsonl(file: Option<seq<string>>, decode: string -> Entry): (r: seq<Entry>)
    ensures file.None? ==> r == []
  {
    if file.None? then [] else Decoded(file.value, decode)
  }

  function Decoded(lines: seq<string>, decode: string -> Entry): (r: seq<Entry>)
    ensures |r| <= |lines|
    decreases |lines|
  {
    if lines == [] then []
    else (if Blank(lines[0]) then [] else [decode(lines[0])]) + Decoded(lines[1..], decode)
  }

  /** Reading a file with one more line at its end gives one more record, unless that line is blank. */
  lemma {:induction false} DecodedSnoc(lines: seq<string>, line: string, decode: string -> Entry)
    ensures Decoded(lines + [line], decode) == Decoded(lines, decode) + (if Blank(line) then [] else [decode(line)])
    decreases |lines|
  {
    var s := lines + [line];
    if lines == [] {
      assert s == [line] && s[1..] == [];
    } else {
      var h := if Blank(lines[0]) then [] else [decode(lines[0])];
      assert s[0] == lines[0] && s[1..] == lines[1..] + [line];
      assert Decoded(s, decode) == h + Decoded(lines[1..] + [line], decode);
      DecodedSnoc(lines[1..], line, decode);
    }
  }

  /** The texts of the records whose lowercased text contains `q`, in file order. */
  function Matches(entries: seq<Entry>, q: string): (r: seq<string>)
    ensures |r| <= |entries|
    decreases |entries|
  {
    if entries == [] then []
    else
      var t := TextOf(entries[0]);
      (if Contains(Lower(t), q) then [t] else []) + Matches(entries[1..], q)
  }

  /**
   * Every text returned matches and belongs to a record; every matching
   * record's text is returned.
   */
  lemma {:induction false} MatchesSpec(entries: seq<Entry>, q: string)
    ensures forall t :: t in Matches(entries, q) ==>
      Contains(Lower(t), q) && exists e :: e in entries && TextOf(e) == t
    ensures forall e :: e in entries && Contains(Lower(TextOf(e)), q) ==> TextOf(e) in Matches(entries, q)
    decreases |entries|
  {
    if entries != [] {
      MatchesSpec(entries[1..], q);
      assert forall e :: e in entries[1..] ==> e in entries;
      assert forall e :: e in entries ==> e == entries[0] || e in entries[1..];
    }
  }

  /** Filtering two logs one after the other is filtering their concatenation: file order is kept. */
  lemma {:induction false} MatchesAppend(a: seq<Entry>, b: seq<Entry>, q: string)
    ensures Matches(a + b, q) == Matches(a, q) + Matches(b, q)
    decreases |a|
  {
    if a == [] {
      assert a + b == b;
    } else {
      assert (a + b)[0] == a[0] && (a + b)[1..] == a[1..] + b;
      MatchesAppend(a[1..], b, q);
    }
  }

  /** An empty query keeps every record's text. */
  lemma {:induction false} MatchesEmpty(entries: seq<Entry>)
    ensures Matches(entries, []) == seq(|entries|, i requires 0 <= i < |entries| => TextOf(entries[i]))
    decreases |entries|
  {
    if entries != [] {
      ContainsEmpty(Lower(TextOf(entries[0])));
      MatchesEmpty(entries[1..]);
    }
  }

  /**
   * `load_memory_context`: the lowercased query (`None` read as empty) filters
   * the public log and then the user's private log.
   */
  function LoadMemoryContext(publicFile: Option<seq<string>>, privateFile: Option<seq<string>>,
    query: Option<string>, decode: string -> Entry): (r: seq<string>)
    ensures |r| <= |LoadJsonl(publicFile, decode)| + |LoadJsonl(privateFile, decode)|
  {
    var q := Lower(query.GetOr([]));
    Matches(LoadJsonl(publicFile, decode), q) + Matches(LoadJsonl(privateFile, decode), q)
  }

  /**
   * The context is the public matches followed by the private ones; an empty or
   * missing query returns every record's text; missing files contribute nothing.
   */
  lemma LoadMemoryContextSpec(publicFile: Option<seq<string>>, privateFile: Option<seq<string>>,
    query: Option<string>, decode: string -> Entry)
    ensures var pub := LoadJsonl(publicFile, decode); var priv := LoadJsonl(privateFile, decode);
      var r := LoadMemoryContext(publicFile, privateFile, query, decode);
      && r == Matches(pub + priv, Lower(query.GetOr([])))
      && (query.GetOr([]) == [] ==> r == seq(|pub + priv|, i requires 0 <= i < |pub + priv| => TextOf((pub + priv)[i])))
      && (publicFile.None? && privateFile.None? ==> r == [])
  {
    var pub := LoadJsonl(publicFile, decode);
    var priv := LoadJsonl(privateFile, decode);
    MatchesAppend(pub, priv, Lower(query.GetOr([])));
    if query.GetOr([]) == [] {
      MatchesEmpty(pub + priv);
    }
  }

  /** The memory directory: the public log and each user's private log, as lines. */
  class MemoryDir {
    var publicLog: Option<seq<string>>
    var privateLogs: map<string, seq<string>>

    constructor (publicLog: Option<seq<string>>, privateLogs: map<string, seq<string>>)
      ensures this.publicLog == publicLog && this.privateLogs == privateLogs
    {
      this.publicLog := publicLog;
      this.privateLogs := privateLogs;
    }

    /** `MEMORY_DIR / user / "private.jsonl"`, when it exists. */
    function PrivateFile(user: string): Option<seq<string>>
      reads this
    {
      if user in privateLogs then Some(privateLogs[user]) else None
    }

    /**
     * `append_to_memory`: one line, `encode` of the record stamped `now + "Z"`
     * (`encode` stands for `json.dumps`), is added at the end of the user's
     * private log, which is created when missing; nothing else changes.
     */
    method AppendToMemory(user: string, text: string, now: string, encode: Entry -> string)
      modifies this
      ensures publicLog == old(publicLog)
      ensures privateLogs == old(privateLogs)[user := old(PrivateFile(user)).GetOr([])
        + [encode(Entry(Some(now + "Z"), Some(text)))]]
    {
      var line := encode(Entry(Some(now + "Z"), Some(text)));
      var lines := if user in privateLogs then privateLogs[user] else [];
      privateLogs := privateLogs[user := lines + [line]];
    }
  }

  /**
   * With a `json.dumps` that `json.loads` reads back and that never writes a
   * blank line, appending a record makes it the last record of the log and adds
   * its text to the context exactly when it matches the query.
   */
  lemma AppendThenLoad(publicFile: Option<seq<string>>, privateFile: Option<seq<string>>, e: Entry,
    query: Option<string>, encode: Entry -> string, decode: string -> Entry)
    requires decode(encode(e)) == e && !Blank(encode(e))
    ensures var after := Some(privateFile.GetOr([]) + [encode(e)]);
      && LoadJsonl(after, decode) == LoadJsonl(privateFile, decode) + [e]
      && LoadMemoryContext(publicFile, after, query, decode)
        == LoadMemoryContext(publicFile, privateFile, query, decode)
          + (if Contains(Lower(TextOf(e)), Lower(query.GetOr([]))) then [TextOf(e)] else [])
  {
    var q := Lower(query.GetOr([]));
    var before := LoadJsonl(privateFile, decode);
    var after := Some(privateFile.GetOr([]) + [encode(e)]);
    DecodedSnoc(privateFile.GetOr([]), encode(e), decode);
    assert LoadJsonl(after, decode) == before + [e];
    MatchesAppend(before, [e], q);
    assert Matches([e], q) == (if Contains(Lower(TextOf(e)), q) then [TextOf(e)] else []) by {
      assert [e][1..] == [];
    }
    var pub := Matches(LoadJsonl(publicFile, decode), q);
    assert LoadMemoryContext(publicFile, after, query, decode) == pub + (Matches(before, q) + Matches([e], q));
  }
}
