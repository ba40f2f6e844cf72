/** The Markdown index: a map from key to log paths, kept as text that is read back in two ways,
    line by line when it is updated and by one scan of the whole text when it is queried. */
module MarkdownIndex {
  import opened Wrappers
  import opened Text
  import opened PythonText
  import opened Ordering
  import opened IndexGrammar

  type Entries = map<string, seq<string>>

  /** The file as `_merge` reads it: free-standing lines, and the entries. */
  datatype Doc = Doc(header: seq<string>, entries: Entries)

  // ----- Lines -----

  /** The position of the first line break, or the length. */
  function FirstBreak(s: string): (r: nat)
    ensures r <= |s|
    ensures r < |s| ==> IsBreak(s[r])
    ensures forall i | 0 <= i < r :: !IsBreak(s[i])
  {
    if s == "" || IsBreak(s[0]) then 0 else 1 + FirstBreak(s[1..])
  }

  /** `s.splitlines()`: "\r\n" is one break, and a final break opens no further line. */
  function SplitLines(s: string): seq<string>
    decreases |s|
  {
    if s == "" then []
    else
      var i := FirstBreak(s);
      if i == |s| then [s]
      else
        var next := if s[i] == '\r' && i + 1 < |s| && s[i + 1] == '\n' then i + 2 else i + 1;
        [s[..i]] + SplitLines(s[next..])
  }

  predicate OneLine(s: string) {
    forall i | 0 <= i < |s| :: !IsBreak(s[i])
  }

  function Unlines(lines: seq<string>): string {
    if lines == [] then "" else lines[0] + "\n" + Unlines(lines[1..])
  }

  lemma {:induction false} SplitUnlines(lines: seq<string>)
    requires forall l | l in lines :: OneLine(l)
    ensures SplitLines(Unlines(lines)) == lines
    decreases |lines|
  {
    if lines != [] {
      var s := Unlines(lines);
      var n := |lines[0]|;
      assert lines[0] in lines;
      assert s[..n] == lines[0] && s[n] == '\n';
      var i := FirstBreak(s);
      assert i == n;
      assert s[n + 1..] == Unlines(lines[1..]);
      SplitUnlines(lines[1..]);
    }
  }

  lemma {:induction false} SplitLinesAreLines(s: string)
    ensures forall l | l in SplitLines(s) :: OneLine(l)
    decreases |s|
  {
    if s != "" {
      var i := FirstBreak(s);
      if i < |s| {
        var next := if s[i] == '\r' && i + 1 < |s| && s[i + 1] == '\n' then i + 2 else i + 1;
        SplitLinesAreLines(s[next..]);
      }
    }
  }

  lemma FirstBreakIs(s: string, n: nat)
    requires n < |s| && IsBreak(s[n]) && forall i | 0 <= i < n :: !IsBreak(s[i])
    ensures FirstBreak(s) == n
  {
  }

  /** Where the second line of a text starts, if its first line break is at i. */
  function AfterBreak(s: string, i: nat): (next: nat)
    requires i < |s|
    ensures i < next <= |s|
  {
    if s[i] == '\r' && i + 1 < |s| && s[i + 1] == '\n' then i + 2 else i + 1
  }

  lemma AsReadAt(s: string, i: nat)
    requires i < |s| && '\r' !in s[..i]
    ensures AsRead(s) == s[..i] + ([if s[i] == '\r' then '\n' else s[i]] + AsRead(s[AfterBreak(s, i)..]))
  {
    var tail := s[i..];
    AsReadAfter(s[..i], tail);
    assert s[..i] + tail == s;
    assert tail[0] == s[i] && tail[1..] == s[i + 1..];
    if i + 1 < |s| { assert tail[1] == s[i + 1] && tail[2..] == s[i + 2..]; }
  }

  lemma SplitFirst(s: string, i: nat)
    requires i == FirstBreak(s) < |s|
    ensures SplitLines(s) == [s[..i]] + SplitLines(s[AfterBreak(s, i)..])
  {
  }

  /** The lines of a text do not depend on whether it was read in text mode. */
  lemma {:induction false} LinesAsRead(s: string)
    ensures SplitLines(AsRead(s)) == SplitLines(s)
    decreases |s|
  {
    hide IsBreak, SplitLines, AsRead, FirstBreak;
    PlainCharacters();
    var i := FirstBreak(s);
    if i == |s| {
      AsReadSame(s);
    } else {
      var c, rest := if s[i] == '\r' then '\n' else s[i], s[AfterBreak(s, i)..];
      AsReadAt(s, i);
      var t := s[..i] + ([c] + AsRead(rest));
      assert t[..i] == s[..i] && t[i] == c && t[i + 1..] == AsRead(rest);
      FirstBreakIs(t, i);
      SplitFirst(t, i);
      SplitFirst(s, i);
      LinesAsRead(rest);
    }
  }

  lemma {:induction false} UnlinesKeepOut(lines: seq<string>, c: char)
    requires c != '\n' && forall l | l in lines :: c !in l
    ensures c !in Unlines(lines)
    decreases |lines|
  {
    if lines != [] {
      assert lines[0] in lines;
      UnlinesKeepOut(lines[1..], c);
    }
  }

  /** Printed lines without carriage returns are read back as they were written. */
  lemma LinesReadBack(lines: seq<string>)
    requires forall l | l in lines :: '\r' !in l
    ensures AsRead(Unlines(lines)) == Unlines(lines)
  {
    UnlinesKeepOut(lines, '\r');
    AsReadSame(Unlines(lines));
  }

  lemma {:induction false} UnlinesIsJoin(lines: seq<string>)
    requires |lines| > 0
    ensures Unlines(lines) == Join(lines, "\n") + "\n"
    decreases |lines|
  {
    if |lines| > 1 {
      UnlinesIsJoin(lines[1..]);
      assert lines[0] + "\n" + (Join(lines[1..], "\n") + "\n") == (lines[0] + "\n" + Join(lines[1..], "\n")) + "\n";
    }
  }

  // ----- Keys and items -----

  function Normal(key: string): string {
    Lower(Strip(key))
  }

  /** `[k.strip().lower() for k in keys if k and k.strip()]`. */
  function NormalKeys(keys: seq<string>): seq<string> {
    if keys == [] then []
    else NormalKeys(keys[..|keys| - 1]) + if Strip(keys[|keys| - 1]) != "" then [Normal(keys[|keys| - 1])] else []
  }

  /** `[item.strip() for item in pieces if item.strip()]`. */
  function NonBlank(pieces: seq<string>): seq<string> {
    if pieces == [] then []
    else (if Strip(pieces[0]) != "" then [Strip(pieces[0])] else []) + NonBlank(pieces[1..])
  }

  function Items(raw: string): seq<string> {
    NonBlank(Split(Strip(raw), ','))
  }

  /** A normalised key that the grammar can read back. */
  ghost predicate GoodKey(k: string) {
    k != "" && Trimmed(PySpace, k) && Lower(k) == k && ':' !in k && OneLine(k)
  }

  /** A path that the item list can read back. */
  ghost predicate GoodItem(v: string) {
    v != "" && Trimmed(PySpace, v) && ',' !in v && OneLine(v)
  }

  /** A key that the whole-text scan can find. A newline in it does no harm there; a carriage
      return would be read back as a newline. */
  ghost predicate ScanKey(k: string) {
    k != "" && Trimmed(PySpace, k) && ':' !in k && '\r' !in k
  }

  /** A path that the whole-text scan can return. */
  ghost predicate ScanItem(v: string) {
    v != "" && Trimmed(PySpace, v) && ',' !in v && '\n' !in v && '\r' !in v
  }

  // ----- Reading line by line -----

  function Absorb(doc: Doc, line: string): Doc {
    match MatchAt(line, 0)
    case Some(m) => doc.(entries := doc.entries[Normal(m.key) := Items(m.items)])
    case None => if Strip(line) != "" then doc.(header := doc.header + [line]) else doc
  }

  function ParseLines(lines: seq<string>): Doc {
    if lines == [] then Doc([], map[]) else Absorb(ParseLines(lines[..|lines| - 1]), lines[|lines| - 1])
  }

  function Parse(content: string): Doc {
    ParseLines(SplitLines(content))
  }

  // ----- Printing -----

  function EntryLine(key: string, items: seq<string>): string {
    "- " + key + ": [" + Join(items, ", ") + "]"
  }

  function EntryLines(keys: seq<string>, entries: Entries): (r: seq<string>)
    requires forall k | k in keys :: k in entries
    ensures |r| == |keys|
  {
    if keys == [] then []
    else
      var front, key := keys[..|keys| - 1], keys[|keys| - 1];
      EntryLines(front, entries) + [EntryLine(key, entries[key])]
  }

  function SortedKeys(entries: Entries): (r: seq<string>)
    ensures forall k :: k in r <==> k in entries
  {
    SortedIsAscending(entries.Keys);
    var r := Sorted(entries.Keys);
    assert forall k :: k in r <==> k in Elements(r);
    r
  }

  function Lines(doc: Doc): seq<string> {
    doc.header + [""] + EntryLines(SortedKeys(doc.entries), doc.entries)
  }

  function Print(doc: Doc): string {
    Unlines(Lines(doc))
  }

  // ----- Updating -----

  function AddValue(bucket: seq<string>, value: string): seq<string> {
    if value in bucket then bucket else bucket + [value]
  }

  function Bucket(entries: Entries, key: string): seq<string> {
    if key in entries then entries[key] else []
  }

  function AddAll(entries: Entries, keys: seq<string>, value: string): Entries {
    if keys == [] then entries
    else
      var before := AddAll(entries, keys[..|keys| - 1], value);
      var key := keys[|keys| - 1];
      before[key := AddValue(Bucket(before, key), value)]
  }

  function Title(fileName: string): string {
    "# " + fileName
  }

  function WithTitle(doc: Doc, fileName: string): Doc {
    if doc.header == [] then doc.(header := [Title(fileName)]) else doc
  }

  function MergeDoc(content: string, keys: seq<string>, value: string, fileName: string): Doc {
    var doc := Parse(content);
    Doc(WithTitle(doc, fileName).header, AddAll(doc.entries, keys, value))
  }

  /** The line reader reads the same from a file as from its text on disk. */
  lemma ParseAsRead(content: string)
    ensures Parse(AsRead(content)) == Parse(content)
  {
    LinesAsRead(content);
  }

  /** The text `_merge` writes. */
  function MergeText(content: string, keys: seq<string>, value: string, fileName: string): string {
    Print(MergeDoc(content, keys, value, fileName))
  }

  method Merge(content: string, keys: seq<string>, value: string, fileName: string) returns (updated: string)
    ensures updated == MergeText(content, keys, value, fileName)
  {
    var lines := SplitLines(content);
    var header: seq<string> := [];
    var entries: Entries := map[];
    for n := 0 to |lines|
      invariant Doc(header, entries) == ParseLines(lines[..n])
    {
      assert lines[..n + 1][..n] == lines[..n];
      var m := MatchAt(lines[n], 0);
      if m.Some? {
        entries := entries[Normal(m.value.key) := Items(m.value.items)];
      } else if Strip(lines[n]) != "" {
        header := header + [lines[n]];
      }
    }
    assert lines[..|lines|] == lines;
    if header == [] { header := [Title(fileName)]; }
    ghost var read := entries;
    for n := 0 to |keys|
      invariant entries == AddAll(read, keys[..n], value)
    {
      assert keys[..n + 1][..n] == keys[..n];
      var bucket := if keys[n] in entries then entries[keys[n]] else [];
      if value !in bucket { bucket := bucket + [value]; }
      entries := entries[keys[n] := bucket];
    }
    assert keys[..|keys|] == keys;
    var rebuilt := header + [""] + EntryLines(SortedKeys(entries), entries);
    UnlinesIsJoin(rebuilt);
    updated := Join(rebuilt, "\n") + "\n";
  }

  // ----- Querying -----

  predicate LineStart(t: string, i: nat) {
    i == 0 || (i <= |t| && t[i - 1] == '\n')
  }

  /** The whole-text scan from `i` on: the items of the first match with this key. */
  function Scan(t: string, i: nat, key: string): seq<string>
    requires i <= |t|
    decreases |t| - i
  {
    if LineStart(t, i) && MatchAt(t, i).Some? then
      var m := MatchAt(t, i).value;
      if Strip(m.key) == key then Items(m.items) else Scan(t, m.end, key)
    else if i < |t| then Scan(t, i + 1, key)
    else []
  }

  /** `lookup` on a stored file, which it reads in text mode. */
  function LookupText(content: string, key: string): seq<string> {
    Scan(AsRead(content), 0, Strip(key))
  }

  method Lookup(content: string, key: string) returns (paths: seq<string>)
    ensures paths == LookupText(content, key)
  {
    hide MatchAt, Items, Strip, AsRead;
    var text := AsRead(content);
    var i := 0;
    while true
      invariant i <= |text|
      invariant Scan(text, i, Strip(key)) == LookupText(content, key)
      decreases |text| - i
    {
      var m := if LineStart(text, i) then MatchAt(text, i) else None;
      if m.Some? {
        if Strip(m.value.key) == Strip(key) { return Items(m.value.items); }
        i := m.value.end;
      } else if i < |text| {
        i := i + 1;
      } else {
        return [];
      }
    }
  }
}
