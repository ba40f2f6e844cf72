/** Whole histories of updates: what a query returns is what was filed. */
module IndexHistory {
  import opened Text
  import opened PythonText
  import opened IndexGrammar
  import opened MarkdownIndex
  import opened IndexReading
  import opened IndexLines

  // ----- The whole-text scan over printed text -----

  /** The length of these lines as text. */
  function Span(lines: seq<string>): nat {
    if lines == [] then 0 else |lines[0]| + 1 + Span(lines[1..])
  }

  /** `t` holds these lines from the line start `i` on. */
  ghost predicate Holds(t: string, i: nat, lines: seq<string>)
    decreases |lines|
  {
    LineStart(t, i) &&
    (lines == [] || (i + |lines[0]| < |t| && HasLine(t, i, lines[0]) && Holds(t, i + |lines[0]| + 1, lines[1..])))
  }

  lemma {:induction false} HoldsSpan(t: string, i: nat, lines: seq<string>)
    requires Holds(t, i, lines) && i <= |t|
    ensures i + Span(lines) <= |t|
    decreases |lines|
  {
    if lines != [] { HoldsSpan(t, i + |lines[0]| + 1, lines[1..]); }
  }

  lemma {:induction false} HoldsBoth(t: string, i: nat, a: seq<string>, b: seq<string>)
    requires Holds(t, i, a + b)
    ensures Holds(t, i, a) && Holds(t, i + Span(a), b)
    decreases |a|
  {
    if a == [] {
      assert a + b == b;
    } else {
      assert (a + b)[1..] == a[1..] + b;
      HoldsBoth(t, i + |a[0]| + 1, a[1..], b);
    }
  }

  lemma {:induction false} UnlinesHolds(pre: string, lines: seq<string>)
    requires LineStart(pre, |pre|)
    ensures Holds(pre + Unlines(lines), |pre|, lines) && |pre| + Span(lines) == |pre + Unlines(lines)|
    decreases |lines|
  {
    var t := pre + Unlines(lines);
    if lines != [] {
      var next := pre + lines[0] + "\n";
      UnlinesHolds(next, lines[1..]);
      assert t == next + Unlines(lines[1..]);
      assert t[|pre|..|pre| + |lines[0]|] == lines[0];
    }
    assert LineStart(t, |pre|) by { assert |pre| > 0 ==> t[|pre| - 1] == pre[|pre| - 1]; }
  }

  /** One free-standing line that does not start with a dash is passed over. */
  lemma ScanPassesLine(t: string, i: nat, line: string, key: string)
    requires i + |line| < |t| && HasLine(t, i, line) && OneLine(line) && (line == "" || line[0] != '-')
    ensures Scan(t, i, key) == Scan(t, i + |line| + 1, key)
  {
    hide IsBreak, Scan;
    PlainCharacters();
    assert forall j | 0 <= j < |line| :: t[i + j] == line[j];
    forall n: nat | i <= n < i + |line| + 1 && t[n] == '-' ensures !LineStart(t, n) {
      assert t[n] == line[n - i];
      assert t[n - 1] == line[n - 1 - i];
    }
    ScanSkips(t, i, i + |line| + 1, key);
  }

  lemma {:induction false} ScanPassesLines(t: string, i: nat, lines: seq<string>, key: string)
    requires i <= |t| && Holds(t, i, lines) && forall l | l in lines :: OneLine(l) && (l == "" || l[0] != '-')
    ensures i + Span(lines) <= |t| && Scan(t, i, key) == Scan(t, i + Span(lines), key)
    decreases |lines|
  {
    hide MatchAt;
    if lines != [] {
      assert lines[0] in lines;
      ScanPassesLine(t, i, lines[0], key);
      ScanPassesLines(t, i + |lines[0]| + 1, lines[1..], key);
    }
  }

  /** At an entry line the scan stops with its items or goes on to the next line. */
  lemma ScanAtEntry(t: string, i: nat, entryKey: string, items: seq<string>, key: string)
    requires ScanKey(entryKey) && ScanItems(items) && LineStart(t, i)
    requires var n := i + |EntryLine(entryKey, items)|;
             n < |t| && HasLine(t, i, EntryLine(entryKey, items)) && (n + 1 < |t| ==> t[n + 1] == '-')
    ensures Scan(t, i, key) == if entryKey == key then items else Scan(t, i + |EntryLine(entryKey, items)| + 1, key)
  {
    hide MatchAt, MatchEnd, Items;
    var line := EntryLine(entryKey, items);
    var n := i + |line|;
    EntryLineMatches(t, i, entryKey, items);
    var m := MatchAt(t, i).value;
    assert t[i..n][|line| - 1] == line[|line| - 1] == ']';
    assert t[n - 1] == ']';
    MatchEndsByNextLine(t, n);
    ScanSkips(t, m.end, n + 1, key);
  }

  lemma MatchEndsByNextLine(t: string, n: nat)
    requires n < |t| && t[n] == '\n' && (n + 1 < |t| ==> t[n + 1] == '-')
    ensures n <= MatchEnd(t, n) <= n + 1
  {
    hide PySpace;
    PlainCharacters();
    SkipSpaceStops(t, n);
  }

  lemma {:induction false} EntryLinesFront(keys: seq<string>, entries: Entries)
    requires keys != [] && forall k | k in keys :: k in entries
    ensures EntryLines(keys, entries) == [EntryLine(keys[0], entries[keys[0]])] + EntryLines(keys[1..], entries)
    decreases |keys|
  {
    if |keys| > 1 {
      EntryLinesFront(keys[..|keys| - 1], entries);
      assert keys[..|keys| - 1][1..] == keys[1..][..|keys| - 2];
    }
  }

  /** The first line of some entries starts with a dash. */
  lemma EntriesStartWithDash(t: string, i: nat, keys: seq<string>, entries: Entries)
    requires (forall k | k in keys :: k in entries) && Holds(t, i, EntryLines(keys, entries))
    requires i + Span(EntryLines(keys, entries)) == |t|
    ensures i < |t| ==> t[i] == '-'
  {
    if keys != [] {
      EntryLinesFront(keys, entries);
      var line := EntryLines(keys, entries)[0];
      assert t[i..i + |line|][0] == line[0] == '-';
    }
  }

  lemma ScanAtEnd(t: string, key: string)
    ensures Scan(t, |t|, key) == []
  {
  }

  lemma {:induction false} ScanEntries(t: string, i: nat, keys: seq<string>, entries: Entries, key: string)
    requires forall k | k in keys :: k in entries && ScanKey(k) && ScanItems(entries[k])
    requires Holds(t, i, EntryLines(keys, entries)) && i + Span(EntryLines(keys, entries)) == |t|
    ensures Scan(t, i, key) == if key in keys then entries[key] else []
    decreases |keys|
  {
    hide MatchAt, Items, Scan, Strip, EntryLine;
    if keys != [] {
      var k, more := keys[0], EntryLines(keys[1..], entries);
      var n := |EntryLine(k, entries[k])|;
      assert k in keys;
      EntryLinesFront(keys, entries);
      assert EntryLines(keys, entries)[1..] == more;
      EntriesStartWithDash(t, i + n + 1, keys[1..], entries);
      ScanAtEntry(t, i, k, entries[k], key);
      ScanEntries(t, i + n + 1, keys[1..], entries, key);
    } else {
      ScanAtEnd(t, key);
    }
  }

  /** A document that the scan reads entry by entry: its free-standing lines cannot be taken
      for the start of an entry. Keys may hold line breaks. */
  ghost predicate Plain(doc: Doc) {
    && (forall h | h in doc.header :: OneLine(h) && (h == "" || h[0] != '-'))
    && (forall k | k in doc.entries :: ScanKey(k) && ScanItems(doc.entries[k]))
  }

  lemma {:induction false} EntriesKeepOutReturns(keys: seq<string>, entries: Entries)
    requires forall k | k in keys :: k in entries && ScanKey(k) && ScanItems(entries[k])
    ensures forall l | l in EntryLines(keys, entries) :: '\r' !in l
    decreases |keys|
  {
    hide ScanItems;
    if keys != [] {
      var key := keys[|keys| - 1];
      assert key in keys;
      EntriesKeepOutReturns(keys[..|keys| - 1], entries);
      JoinedIsTrimmed(entries[key]);
    }
  }

  /** Such a document is read back as it was written. */
  lemma PlainIsReadBack(doc: Doc)
    requires Plain(doc)
    ensures AsRead(Print(doc)) == Print(doc)
  {
    hide ScanKey, ScanItems;
    PlainCharacters();
    EntriesKeepOutReturns(SortedKeys(doc.entries), doc.entries);
    forall l | l in Lines(doc) ensures '\r' !in l {
      assert l in doc.header || l == "" || l in EntryLines(SortedKeys(doc.entries), doc.entries);
    }
    LinesReadBack(Lines(doc));
  }

  lemma WellFormedIsPlain(doc: Doc)
    requires WellFormed(doc) && forall h | h in doc.header :: h == "" || h[0] != '-'
    ensures Plain(doc)
  {
    hide GoodKey, GoodItems, ScanKey, ScanItems, MatchAt;
    forall k | k in doc.entries ensures ScanKey(k) && ScanItems(doc.entries[k]) { GoodIsScan(k, doc.entries[k]); }
  }

  /** On such a printed document the whole-text scan finds the entries. */
  lemma {:induction false} PlainIsScanned(doc: Doc, key: string)
    requires Plain(doc)
    ensures LookupText(Print(doc), key) == Bucket(doc.entries, Strip(key))
  {
    hide MatchAt, Scan, Strip, Holds, EntryLines;
    PlainIsReadBack(doc);
    var keys, t := SortedKeys(doc.entries), Print(doc);
    var head, tail := doc.header + [""], EntryLines(SortedKeys(doc.entries), doc.entries);
    UnlinesHolds("", Lines(doc));
    assert "" + t == t;
    HoldsBoth(t, 0, head, tail);
    SpanBoth(head, tail);
    ScanPassesLines(t, 0, head, Strip(key));
    ScanEntries(t, Span(head), keys, doc.entries, Strip(key));
  }

  lemma {:induction false} SpanBoth(a: seq<string>, b: seq<string>)
    ensures Span(a + b) == Span(a) + Span(b)
    decreases |a|
  {
    if a == [] {
      assert a + b == b;
    } else {
      assert (a + b)[1..] == a[1..] + b;
      SpanBoth(a[1..], b);
    }
  }

  // ----- One update -----

  lemma {:induction false} AddAllMeaning(entries: Entries, keys: seq<string>, value: string, k: string)
    ensures var after := AddAll(entries, keys, value);
            && (k in after <==> k in entries || k in keys)
            && Bucket(after, k) == if k in keys then AddValue(Bucket(entries, k), value) else Bucket(entries, k)
    decreases |keys|
  {
    if keys != [] {
      var front := keys[..|keys| - 1];
      AddAllMeaning(entries, front, value, k);
      assert keys == front + [keys[|keys| - 1]];
    }
  }

  /** Keys that were normalised and hold no colon and no line break. */
  ghost predicate ReadableKeys(keys: seq<string>) {
    forall k | k in keys :: ':' !in k && OneLine(k)
  }

  lemma {:induction false} NormalKeysAreNormal(keys: seq<string>)
    ensures forall k | k in NormalKeys(keys) :: k != "" && Trimmed(PySpace, k) && Lower(k) == k
    decreases |keys|
  {
    hide PySpace, Trimmed, Lower;
    if keys != [] {
      NormalKeysAreNormal(keys[..|keys| - 1]);
      NormalIsNormal(keys[|keys| - 1]);
    }
  }

  /** Every key given is filed under, stripped and in lower case, but for the blank ones. */
  lemma {:induction false} NormalKeysMeaning(keys: seq<string>, k: string)
    ensures k in NormalKeys(keys) <==> exists x :: x in keys && Strip(x) != "" && k == Lower(Strip(x))
    decreases |keys|
  {
    hide Strip, Lower;
    if keys != [] {
      var front, last := keys[..|keys| - 1], keys[|keys| - 1];
      NormalKeysMeaning(front, k);
      assert keys == front + [last];
    }
  }

  lemma NormalIsNormal(key: string)
    ensures Trimmed(PySpace, Normal(key)) && Lower(Normal(key)) == Normal(key) && |Normal(key)| == |Strip(key)|
  {
    hide PySpace;
    TrimIsTrimmed(PySpace, key);
    LowerKeepsTrimmed(Strip(key));
  }

  lemma LowerKeepsTrimmed(s: string)
    requires Trimmed(PySpace, s)
    ensures Lower(Lower(s)) == Lower(s) && Trimmed(PySpace, Lower(s))
  {
    assert forall i | 0 <= i < |s| :: PySpace(s[i]) == PySpace(Lower(s)[i]);
  }

  /** Adding to a well-formed document keeps it well formed exactly when the keys have no
      colon and no line break and the path no comma, line break or white space around it. */
  lemma AddAllKeepsWellFormed(doc: Doc, keys: seq<string>, value: string)
    requires WellFormed(doc)
    requires forall k | k in keys :: k != "" && Trimmed(PySpace, k) && Lower(k) == k
    ensures WellFormed(Doc(doc.header, AddAll(doc.entries, keys, value)))
      <==> ReadableKeys(keys) && (keys != [] ==> GoodItem(value))
  {
    hide PySpace, Trimmed, Lower, GoodItem, OneLine, AddAll, MatchAt, GoodHeader, Strip;
    var after := AddAll(doc.entries, keys, value);
    forall k ensures (k in after <==> k in doc.entries || k in keys)
      && Bucket(after, k) == if k in keys then AddValue(Bucket(doc.entries, k), value) else Bucket(doc.entries, k) {
      AddAllMeaning(doc.entries, keys, value, k);
    }
    assert forall k | k in keys :: value in Bucket(after, k);
    assert keys != [] ==> keys[0] in keys;
    if ReadableKeys(keys) && (keys != [] ==> GoodItem(value)) {
      forall k | k in after ensures GoodKey(k) && GoodItems(after[k]) {
        assert after[k] == Bucket(after, k);
        assert GoodItems(Bucket(doc.entries, k));
      }
    }
  }

  // ----- Histories -----

  /** One call of `update` as one index file sees it. */
  datatype Filing = Filing(keys: seq<string>, path: string)

  function Fresh(fileName: string): string {
    Title(fileName) + "\n"
  }

  /** The text after `_append_to`. */
  function AppendText(content: string, filing: Filing, fileName: string): string {
    var keys := NormalKeys(filing.keys);
    if keys == [] then content else MergeText(AsRead(content), keys, filing.path, fileName)
  }

  /** Merging into the text on disk would give the same. */
  lemma AppendIsMerge(content: string, filing: Filing, fileName: string)
    requires NormalKeys(filing.keys) != []
    ensures AppendText(content, filing, fileName) == MergeText(content, NormalKeys(filing.keys), filing.path, fileName)
  {
    hide Parse, NormalKeys;
    ParseAsRead(content);
  }

  function Run(fileName: string, filings: seq<Filing>): string {
    if filings == [] then Fresh(fileName)
    else AppendText(Run(fileName, filings[..|filings| - 1]), filings[|filings| - 1], fileName)
  }

  /** The paths filed under a key, without repetition, in the order they first came. */
  function Filed(filings: seq<Filing>, key: string): seq<string> {
    if filings == [] then []
    else
      var before, last := Filed(filings[..|filings| - 1], key), filings[|filings| - 1];
      if key in NormalKeys(last.keys) then AddValue(before, last.path) else before
  }

  /** What the caller must keep to: no colon or line break in a key, no comma, line break or
      surrounding white space in a path that is filed under any key. */
  ghost predicate Readable(f: Filing) {
    ReadableKeys(NormalKeys(f.keys)) && (NormalKeys(f.keys) != [] ==> GoodItem(f.path))
  }

  /** What being filed means: each path once, exactly those some update filed under the key,
      and an update never moves or removes a path. */
  lemma {:induction false} FiledMeaning(filings: seq<Filing>, key: string)
    ensures forall i, j | 0 <= i < j < |Filed(filings, key)| :: Filed(filings, key)[i] != Filed(filings, key)[j]
    ensures forall v :: v in Filed(filings, key) <==>
        exists f :: f in filings && key in NormalKeys(f.keys) && f.path == v
    ensures filings != [] ==> Filed(filings[..|filings| - 1], key) <= Filed(filings, key)
    decreases |filings|
  {
    hide NormalKeys;
    if filings != [] {
      var front, last := filings[..|filings| - 1], filings[|filings| - 1];
      FiledMeaning(front, key);
      assert filings == front + [last];
      forall v ensures v in Filed(filings, key) <==>
          exists f :: f in filings && key in NormalKeys(f.keys) && f.path == v {
        if v in Filed(filings, key) {
          assert v in Filed(front, key) || (last in filings && key in NormalKeys(last.keys) && last.path == v);
        }
      }
    }
  }

  lemma TitleIsGoodHeader(fileName: string)
    requires OneLine(fileName)
    ensures GoodHeader(Title(fileName)) && Parse(Fresh(fileName)) == Doc([Title(fileName)], map[])
    ensures forall key :: LookupText(Fresh(fileName), key) == []
  {
    hide PySpace, MatchAt, Strip, Items;
    PlainCharacters();
    var title := Title(fileName);
    assert title[0] == '#' && Unlines([title]) == Fresh(fileName);
    TitleIsNoMatch(fileName);
    SplitUnlines([title]);
    ParseSnoc([], title);
    assert [] + [title] == [title];
    LinesReadBack([title]);
    forall key ensures LookupText(Fresh(fileName), key) == [] {
      var t := Fresh(fileName);
      assert t[..|title|] == title;
      ScanPassesLine(t, 0, title, Strip(key));
    }
  }

  lemma TitleIsNoMatch(fileName: string)
    requires OneLine(fileName)
    ensures OneLine(Title(fileName)) && MatchAt(Title(fileName), 0).None? && Strip(Title(fileName)) != ""
        && Title(fileName)[0] == '#'
  {
    hide MatchAt, PySpace;
    PlainCharacters();
    var title := Title(fileName);
    assert title == "# " + fileName && title[0] == '#' && OneLine("# ");
    NoDashNoMatch(title, 0);
    TrimLeftStops(PySpace, title);
    TrimRightStops(PySpace, title);
    assert TrimLeft(PySpace, title) == title;
    assert title[0..] == title && !PySpace(title[0]);
  }

  /** The text stands for these filings. */
  ghost predicate StandsFor(content: string, fileName: string, filings: seq<Filing>) {
    var doc := Parse(content);
    && doc.header == [Title(fileName)] && WellFormed(doc)
    && (forall k :: Bucket(doc.entries, k) == Filed(filings, k))
    && (content == Print(doc) || (content == Fresh(fileName) && doc.entries == map[]))
  }

  lemma UpdateStandsFor(content: string, fileName: string, front: seq<Filing>, last: Filing)
    requires StandsFor(content, fileName, front) && Readable(last)
    ensures StandsFor(AppendText(content, last, fileName), fileName, front + [last])
  {
    hide NormalKeys, Parse, Print, GoodItem, OneLine, AddAll, MatchAt;
    var doc, keys, all := Parse(content), NormalKeys(last.keys), front + [last];
    assert all[..|front|] == front;
    if keys != [] {
      var next := Doc(doc.header, AddAll(doc.entries, keys, last.path));
      AppendIsMerge(content, last, fileName);
      NormalKeysAreNormal(last.keys);
      AddAllKeepsWellFormed(doc, keys, last.path);
      PrintedComesBack(next);
      forall k ensures Bucket(next.entries, k) == Filed(all, k) {
        AddAllMeaning(doc.entries, keys, last.path, k);
      }
    }
  }

  lemma {:induction false} RunStandsFor(fileName: string, filings: seq<Filing>)
    requires OneLine(fileName) && forall f | f in filings :: Readable(f)
    ensures StandsFor(Run(fileName, filings), fileName, filings)
    decreases |filings|
  {
    hide Readable, AppendText, Parse, OneLine;
    if filings == [] {
      TitleIsGoodHeader(fileName);
    } else {
      var front, last := filings[..|filings| - 1], filings[|filings| - 1];
      assert last in filings && filings == front + [last];
      RunStandsFor(fileName, front);
      UpdateStandsFor(Run(fileName, front), fileName, front, last);
    }
  }

  /** After any history of readable updates of a fresh file, a query returns exactly what was
      filed under the key: the whole-text scan, the line reader and the abstract map agree. */
  lemma {:induction false} HistoryLookup(fileName: string, filings: seq<Filing>, key: string)
    requires OneLine(fileName) && forall f | f in filings :: Readable(f)
    ensures LookupText(Run(fileName, filings), key) == Filed(filings, Strip(key))
    ensures LookupText(Run(fileName, filings), key) == Bucket(Parse(Run(fileName, filings)).entries, Strip(key))
  {
    hide Readable, AppendText, Parse, OneLine, Scan, Strip, Print, Filed, Run, GoodItem;
    RunStandsFor(fileName, filings);
    var content := Run(fileName, filings);
    var doc := Parse(content);
    TitleIsGoodHeader(fileName);
    if content == Print(doc) {
      assert doc.header[0][0] == '#';
      WellFormedIsPlain(doc);
      PlainIsScanned(doc, key);
    }
  }

  /** The line reader finds a whole history in the file, key by key. */
  ghost predicate Kept(fileName: string, filings: seq<Filing>) {
    forall k :: Bucket(Parse(Run(fileName, filings)).entries, k) == Filed(filings, k)
  }

  lemma KeptIsReadable(fileName: string, filings: seq<Filing>, f: Filing)
    requires Kept(fileName, filings) && f in filings
    ensures Readable(f)
  {
    hide NormalKeys, Parse, GoodItem, OneLine, Run, MatchAt, Filed;
    var content, keys := Run(fileName, filings), NormalKeys(f.keys);
    EntriesAreReadable(content);
    forall k | k in keys ensures ':' !in k && OneLine(k) && GoodItem(f.path) {
      FiledMeaning(filings, k);
      assert f.path in Bucket(Parse(content).entries, k);
    }
    assert keys != [] ==> keys[0] in keys;
  }

  /** The line reader does so exactly when every update in the history is readable. */
  lemma HistoryIsKept(fileName: string, filings: seq<Filing>)
    requires OneLine(fileName)
    ensures Kept(fileName, filings) <==> forall f | f in filings :: Readable(f)
  {
    hide Readable, Parse, Run, Filed;
    if forall f | f in filings :: Readable(f) {
      RunStandsFor(fileName, filings);
    }
    if Kept(fileName, filings) {
      forall f | f in filings ensures Readable(f) { KeptIsReadable(fileName, filings, f); }
    }
  }

  lemma EntriesAreReadable(content: string)
    ensures forall k | k in Parse(content).entries :: ReadableKey(k) && GoodItems(Parse(content).entries[k])
    ensures forall h | h in Parse(content).header :: GoodHeader(h)
  {
    SplitLinesAreLines(content);
    ParsedIsReadable(SplitLines(content));
  }

  // ----- What merging leaves alone -----

  lemma {:induction false} AddAllSame(entries: Entries, keys: seq<string>, value: string)
    requires forall k | k in keys :: value in Bucket(entries, k)
    ensures AddAll(entries, keys, value) == entries
    decreases |keys|
  {
    if keys != [] {
      assert keys[|keys| - 1] in keys;
      AddAllSame(entries, keys[..|keys| - 1], value);
    }
  }

  /** Filing a path under keys that all hold it already changes neither the entries nor the
      header, but for supplying a title where there was no header at all. */
  lemma RefilingChangesNothing(content: string, keys: seq<string>, value: string, fileName: string)
    requires "" !in Parse(content).entries && forall k | k in keys :: value in Bucket(Parse(content).entries, k)
    requires Parse(content).header == [] ==> OneLine(fileName)
    ensures Parse(MergeText(content, keys, value, fileName)) == WithTitle(Parse(content), fileName)
  {
    hide Parse, Print, MatchAt, GoodHeader, ReadableKey, GoodItems, Title;
    var doc := Parse(content);
    AddAllSame(doc.entries, keys, value);
    EntriesAreReadable(content);
    if doc.header == [] { TitleIsGoodHeader(fileName); }
    PrintIfReadable(WithTitle(doc, fileName));
  }

  lemma PrintIfReadable(doc: Doc)
    requires "" !in doc.entries && forall k | k in doc.entries :: ReadableKey(k) && GoodItems(doc.entries[k])
    requires forall h | h in doc.header :: GoodHeader(h)
    ensures WellFormed(doc) && Parse(Print(doc)) == doc
  {
    hide Parse, Print;
    assert WellFormed(doc);
    PrintedComesBack(doc);
  }

  /** Merged text is read back as the merged document exactly when keys and path are readable and
      the file held no blank key, and then it is a fixed point of reading and printing. */
  lemma MergedIsFixedPoint(content: string, keys: seq<string>, value: string, fileName: string)
    requires OneLine(fileName)
    ensures var doc, merged := MergeDoc(content, NormalKeys(keys), value, fileName),
        MergeText(content, NormalKeys(keys), value, fileName);
            && (Parse(merged) == doc <==>
                "" !in Parse(content).entries && ReadableKeys(NormalKeys(keys))
                    && (NormalKeys(keys) != [] ==> GoodItem(value)))
            && (Parse(merged) == doc <==> WellFormed(doc))
            && (Parse(merged) == doc ==> Print(Parse(merged)) == merged)
  {
    hide Parse, Print, MatchAt, GoodHeader, NormalKeys, AddAll, GoodItem, Title, OneLine, PySpace, Lower;
    var doc, normal := MergeDoc(content, NormalKeys(keys), value, fileName), NormalKeys(keys);
    PrintThenParse(doc);
    if "" in Parse(content).entries {
      AddAllMeaning(Parse(content).entries, normal, value, "");
    } else {
      EntriesAreReadable(content);
      TitleIsGoodHeader(fileName);
      PrintIfReadable(WithTitle(Parse(content), fileName));
      NormalKeysAreNormal(keys);
      AddAllKeepsWellFormed(WithTitle(Parse(content), fileName), normal, value);
    }
  }

  /** What one readable update does to what the line reader reads: it adds the path once, at the
      end, to the buckets of its keys and touches nothing else. */
  lemma AppendMeaning(content: string, f: Filing, fileName: string, k: string)
    requires OneLine(fileName) && Readable(f) && "" !in Parse(content).entries
    ensures Bucket(Parse(AppendText(content, f, fileName)).entries, k)
      == if k in NormalKeys(f.keys) then AddValue(Bucket(Parse(content).entries, k), f.path)
          else Bucket(Parse(content).entries, k)
  {
    hide Parse, Print, GoodItem, ReadableKeys, NormalKeys, AddAll, WellFormed, AddValue, Bucket;
    MergedIsFixedPoint(content, f.keys, f.path, fileName);
    if NormalKeys(f.keys) != [] { AppendIsMerge(content, f, fileName); }
    AddAllMeaning(Parse(content).entries, NormalKeys(f.keys), f.path, k);
  }

  // ----- Where the readers fail -----

  lemma {:induction false} ScanFindsNoColon(t: string, i: nat, key: string)
    requires i <= |t| && ':' in key
    ensures Scan(t, i, key) == []
    decreases |t| - i
  {
    hide MatchAt, PySpace, Strip, Items;
    if LineStart(t, i) && MatchAt(t, i).Some? {
      var m := MatchAt(t, i).value;
      var k, c, p, e := MatchAtIsDerivation(t, i);
      assert ':' !in m.key;
      StripKeepsOut(m.key, ':');
      ScanFindsNoColon(t, m.end, key);
    } else if i < |t| {
      ScanFindsNoColon(t, i + 1, key);
    }
  }

  /** What a text does not hold no query finds in it. */
  lemma {:induction false} ScanFindsOnlyText(t: string, i: nat, key: string, c: char)
    requires i <= |t| && c in key && c !in t
    ensures Scan(t, i, key) == []
    decreases |t| - i
  {
    hide MatchAt, PySpace, Strip, Items;
    if LineStart(t, i) && MatchAt(t, i).Some? {
      var m := MatchAt(t, i).value;
      var k, colon, p, e := MatchAtIsDerivation(t, i);
      assert c !in m.key;
      StripKeepsOut(m.key, c);
      ScanFindsOnlyText(t, m.end, key, c);
    } else if i < |t| {
      ScanFindsOnlyText(t, i + 1, key, c);
    }
  }

  lemma StripKeepsOut(key: string, c: char)
    requires c !in key
    ensures c !in Strip(key)
  {
    TrimKeepsOut(PySpace, key, c);
  }

  /** A key with a colon is never found, in any file, and a merge never finds an earlier
      bucket of a key with a colon or a line break: it starts a new one. */
  lemma UnreadableKeysAreLost(content: string, key: string, value: string, fileName: string)
    requires ':' in key || !OneLine(key)
    ensures MergeDoc(content, [key], value, fileName).entries[key] == [value]
    ensures ':' in Strip(key) ==> LookupText(content, key) == []
  {
    hide Parse, Scan, Strip, PySpace;
    EntriesAreReadable(content);
    assert [key][..0] == [];
    assert AddAll(Parse(content).entries, [], value) == Parse(content).entries;
    if ':' in Strip(key) { ScanFindsNoColon(AsRead(content), 0, Strip(key)); }
  }
}
