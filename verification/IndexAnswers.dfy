/** When a query answers what was filed, over whole histories, and where the readers part. */
module IndexAnswers {
  import opened Wrappers
  import opened Text
  import opened PythonText
  import opened Ordering
  import opened IndexGrammar
  import opened MarkdownIndex
  import opened IndexReading
  import opened IndexLines
  import opened IndexHistory
  import opened IndexAgreement

  /** Every query of the file answers exactly what the history filed. */
  ghost predicate Answered(fileName: string, filings: seq<Filing>) {
    forall key :: LookupText(Run(fileName, filings), key) == Filed(filings, Strip(key))
  }

  /** An update that a query right after it can answer: no colon and no carriage return in a key;
      no comma, newline, carriage return or surrounding white space in a path that is filed under
      any key. */
  ghost predicate Scannable(f: Filing) {
    var keys := NormalKeys(f.keys);
    (forall k | k in keys :: ':' !in k && '\r' !in k) && (keys != [] ==> ScanItem(f.path))
  }

  // ----- What a query can never return -----

  lemma {:induction false} ScanReturns(t: string, i: nat, key: string, v: string)
    requires i <= |t| && '\r' !in t && v in Scan(t, i, key)
    ensures ScanItem(v)
    decreases |t| - i
  {
    hide MatchAt, Strip, Items, ScanItem, PySpace;
    if LineStart(t, i) && MatchAt(t, i).Some? {
      var m := MatchAt(t, i).value;
      if Strip(m.key) == key {
        var k, c, p, e := MatchAtIsDerivation(t, i);
        assert '\n' !in m.items && '\r' !in m.items;
        ItemsAreScanned(m.items, v);
      } else {
        ScanReturns(t, m.end, key, v);
      }
    } else {
      ScanReturns(t, i + 1, key, v);
    }
  }

  lemma ItemsAreScanned(raw: string, v: string)
    requires '\n' !in raw && '\r' !in raw && v in Items(raw)
    ensures ScanItem(v)
  {
    hide PySpace, NonBlank;
    TrimKeepsOut(PySpace, raw, '\n');
    TrimKeepsOut(PySpace, raw, '\r');
    JoinSplit(Strip(raw), ',');
    PiecesKeepOut(Strip(raw), '\n');
    PiecesKeepOut(Strip(raw), '\r');
    NonBlankAreScanned(Split(Strip(raw), ','), v);
  }

  lemma {:induction false} PiecesKeepOut(s: string, c: char)
    requires c !in s
    ensures forall p | p in Split(s, ',') :: c !in p
    decreases |s|
  {
    if s != "" {
      PiecesKeepOut(s[1..], c);
      assert Split(s[1..], ',')[0] in Split(s[1..], ',');
      assert s[0] in s;
    }
  }

  lemma {:induction false} NonBlankAreScanned(pieces: seq<string>, v: string)
    requires (forall p | p in pieces :: ',' !in p && '\n' !in p && '\r' !in p) && v in NonBlank(pieces)
    ensures ScanItem(v)
    decreases |pieces|
  {
    hide PySpace;
    var p := pieces[0];
    assert p in pieces;
    TrimIsTrimmed(PySpace, p);
    TrimKeepsOut(PySpace, p, ',');
    TrimKeepsOut(PySpace, p, '\n');
    TrimKeepsOut(PySpace, p, '\r');
    if v in NonBlank(pieces[1..]) { NonBlankAreScanned(pieces[1..], v); }
  }

  /** However the history goes on, an update that is not scannable is not answered. */
  lemma AnsweredIsScannable(fileName: string, filings: seq<Filing>, f: Filing)
    requires Answered(fileName, filings) && f in filings
    ensures Scannable(f)
  {
    hide NormalKeys, Scan, ScanItem, Run, Filed, Strip, AsRead;
    var text, keys := Run(fileName, filings), NormalKeys(f.keys);
    var t := AsRead(text);
    AsReadHasNoReturn(text);
    NormalKeysAreNormal(f.keys);
    forall k | k in keys ensures ':' !in k && '\r' !in k && ScanItem(f.path) {
      FiledMeaning(filings, k);
      StripKey(k);
      assert f.path in LookupText(text, k);
      ScanReturns(t, 0, k, f.path);
      if ':' in k { ScanFindsNoColon(t, 0, k); }
      if '\r' in k { ScanFindsOnlyText(t, 0, k, '\r'); }
    }
    assert keys != [] ==> keys[0] in keys;
  }

  // ----- The last update -----

  /** One scannable update of a file that stands for a readable history is answered. */
  lemma NextIsAnswered(content: string, fileName: string, front: seq<Filing>, last: Filing, key: string)
    requires StandsFor(content, fileName, front) && Scannable(last) && NormalKeys(last.keys) != []
    ensures LookupText(AppendText(content, last, fileName), key) == Filed(front + [last], Strip(key))
  {
    hide NormalKeys, Parse, Print, ScanItem, AddAll, MatchAt, ScanKey;
    hide ScanItems, GoodKey, GoodItems, Trimmed, Lower, Strip, Scan;
    var doc, keys, all := Parse(content), NormalKeys(last.keys), front + [last];
    assert all[..|front|] == front;
    AppendIsMerge(content, last, fileName);
    var next := Doc(doc.header, AddAll(doc.entries, keys, last.path));
    forall k ensures (k in next.entries <==> k in doc.entries || k in keys)
      && Bucket(next.entries, k) == if k in keys then AddValue(Bucket(doc.entries, k), last.path)
          else Bucket(doc.entries, k) {
      AddAllMeaning(doc.entries, keys, last.path, k);
    }
    NormalKeysAreNormal(last.keys);
    forall k | k in next.entries ensures ScanKey(k) && ScanItems(next.entries[k]) {
      assert next.entries[k] == Bucket(next.entries, k);
      GoodIsScan(k, Bucket(doc.entries, k));
      NextBucket(doc.entries, k, last.path);
      if k in keys { NormalIsScanKey(k); }
    }
    TitleIsPlain(fileName, doc.header);
    PlainIsScanned(next, key);
  }

  lemma NextBucket(entries: Entries, k: string, path: string)
    requires k in entries ==> GoodKey(k) && GoodItems(entries[k])
    ensures ScanItems(Bucket(entries, k)) && (ScanItem(path) ==> ScanItems(AddValue(Bucket(entries, k), path)))
  {
    hide GoodItem, ScanItem;
    GoodIsScan(k, Bucket(entries, k));
  }

  lemma NormalIsScanKey(k: string)
    requires k != "" && Trimmed(PySpace, k) && ':' !in k && '\r' !in k
    ensures ScanKey(k)
  {
  }

  lemma TitleIsPlain(fileName: string, header: seq<string>)
    requires header == [Title(fileName)] && GoodHeader(Title(fileName))
    ensures forall h | h in header :: OneLine(h) && (h == "" || h[0] != '-')
  {
    hide MatchAt, Strip;
  }

  /** After a readable history one more update is answered exactly when it is scannable, even
      if a key of it holds a newline. */
  lemma LastUpdateIsAnswered(fileName: string, front: seq<Filing>, last: Filing)
    requires OneLine(fileName) && forall f | f in front :: Readable(f)
    ensures Answered(fileName, front + [last]) <==> Scannable(last)
  {
    hide Readable, Scannable, StandsFor, LookupText, Filed, AppendText, NormalKeys;
    var all := front + [last];
    assert all[..|front|] == front && last in all;
    RunStandsFor(fileName, front);
    assert Run(fileName, all) == AppendText(Run(fileName, front), last, fileName);
    if Scannable(last) {
      forall key ensures LookupText(Run(fileName, all), key) == Filed(all, Strip(key)) {
        if NormalKeys(last.keys) == [] {
          NothingFiled(fileName, front, last);
          HistoryLookup(fileName, front, key);
        } else {
          NextIsAnswered(Run(fileName, front), fileName, front, last, key);
        }
      }
    }
    if Answered(fileName, all) { AnsweredIsScannable(fileName, all, last); }
  }

  /** An update without keys leaves file and history as they are. */
  lemma NothingFiled(fileName: string, front: seq<Filing>, last: Filing)
    requires NormalKeys(last.keys) == []
    ensures Run(fileName, front + [last]) == Run(fileName, front)
    ensures forall key :: Filed(front + [last], key) == Filed(front, key)
  {
    assert (front + [last])[..|front|] == front;
  }

  // ----- A key with a newline -----

  lemma SortedOne(key: string, items: seq<string>)
    ensures SortedKeys(map[key := items]) == [key]
  {
    var entries := map[key := items];
    assert entries.Keys == {key};
    SortedIsAscending({key});
    AscendingIsUnique([key], Sorted({key}));
  }

  lemma PrintedOne(header: seq<string>, key: string, items: seq<string>)
    ensures Print(Doc(header, map[key := items])) == Unlines(header + [""] + [EntryLine(key, items)])
  {
    hide SortedKeys, EntryLine;
    var entries := map[key := items];
    SortedOne(key, items);
    assert [key][..0] == [];
    assert EntryLines([key], entries) == [] + [EntryLine(key, items)] == [EntryLine(key, items)];
  }

  lemma OneNormalKey(key: string)
    requires key != "" && Trimmed(PySpace, key) && Lower(key) == key
    ensures NormalKeys([key]) == [key]
  {
    StripKey(key);
    assert [key][..0] == [];
  }

  /** The document after one update under a single normalised key. */
  lemma OneMerge(content: string, key: string, path: string, fileName: string)
    ensures var doc := Parse(content);
            MergeText(content, [key], path, fileName)
              == Print(Doc(WithTitle(doc, fileName).header,
                  doc.entries[key := AddValue(Bucket(doc.entries, key), path)]))
  {
    assert [key][..0] == [];
    assert AddAll(Parse(content).entries, [], path) == Parse(content).entries;
  }

  /** Nothing was filed yet. */
  lemma EmptyHistory(fileName: string)
    ensures Run(fileName, []) == Fresh(fileName) && forall k :: Filed([], k) == []
  {
  }

  lemma OneRun(fileName: string, front: seq<Filing>, key: string, path: string)
    requires key != "" && Trimmed(PySpace, key) && Lower(key) == key
    ensures var doc := Parse(Run(fileName, front));
            Run(fileName, front + [Filing([key], path)])
              == Print(Doc(WithTitle(doc, fileName).header,
                  doc.entries[key := AddValue(Bucket(doc.entries, key), path)]))
    ensures forall k :: Filed(front + [Filing([key], path)], k) == if k == key then AddValue(Filed(front, k), path)
        else Filed(front, k)
  {
    hide NormalKeys, Parse, Print, MergeText;
    OneNormalKey(key);
    assert (front + [Filing([key], path)])[..|front|] == front;
    AppendIsMerge(Run(fileName, front), Filing([key], path), fileName);
    OneMerge(Run(fileName, front), key, path, fileName);
  }

  /** Two good keys on two lines are one normalised key. */
  lemma BrokenIsNormal(first: string, dash: string, second: string)
    requires GoodKey(first) && GoodKey(second) && dash in {"", "- "}
    ensures var key := first + "\n" + (dash + second);
            key != "" && Trimmed(PySpace, key) && Lower(key) == key && ':' !in key && '\r' !in key && !OneLine(key)
  {
    var key := first + "\n" + (dash + second);
    assert key[|first|] == '\n' && IsBreak('\n');
    assert key[|key| - 1] == second[|second| - 1];
    forall j | 0 <= j < |key| ensures LowerChar(key[j]) == key[j] && key[j] != ':' {
      if j < |first| {
        assert LowerChar(first[j]) == Lower(first)[j];
      } else if j > |first| + |dash| {
        assert key[j] == second[j - |first| - 1 - |dash|];
        assert LowerChar(second[j - |first| - 1 - |dash|]) == Lower(second)[j - |first| - 1 - |dash|];
      }
    }
  }

  /** The file after one update under a key that spans two lines. */
  lemma BrokenKeyText(fileName: string, first: string, rest: string, path: string)
    requires OneLine(fileName)
    requires var key := first + "\n" + rest; key != "" && Trimmed(PySpace, key) && Lower(key) == key
    ensures Run(fileName, [Filing([first + "\n" + rest], path)])
      == Unlines([Title(fileName), "", "- " + first, rest + ": [" + path + "]"])
  {
    hide Parse, Print, Title, Unlines, EntryLine, Run, Filed, Fresh;
    var key := first + "\n" + rest;
    TitleIsGoodHeader(fileName);
    OneRun(fileName, [], key, path);
    assert [] + [Filing([key], path)] == [Filing([key], path)];
    assert map[][key := [path]] == map[key := [path]] && [] + [path] == [path];
    EmptyHistory(fileName);
    assert Run(fileName, [Filing([key], path)]) == Print(Doc([Title(fileName)], map[key := [path]]));
    PrintedOne([Title(fileName)], key, [path]);
    UnlinesBroken(Title(fileName), "- " + first, rest + ": [" + path + "]");
    BrokenEntryLine(first, rest, path);
    assert [Title(fileName)] + [""] + [EntryLine(key, [path])] == [Title(fileName), "", EntryLine(key, [path])];
  }

  lemma BrokenEntryLine(first: string, rest: string, path: string)
    ensures EntryLine(first + "\n" + rest, [path]) == ("- " + first) + "\n" + (rest + ": [" + path + "]")
  {
  }

  lemma UnlinesBroken(title: string, a: string, b: string)
    ensures Unlines([title, "", a + "\n" + b]) == Unlines([title, "", a, b])
  {
    assert Unlines([a + "\n" + b]) == Unlines([a, b]) by {
      assert [a, b][1..] == [b] && [b][1..] == [] && [a + "\n" + b][1..] == [];
      assert (a + "\n" + b) + "\n" + "" == a + "\n" + (b + "\n" + "");
    }
    assert ["", a + "\n" + b][1..] == [a + "\n" + b] && ["", a, b][1..] == [a, b];
    assert [title, "", a + "\n" + b][1..] == ["", a + "\n" + b] && [title, "", a, b][1..] == ["", a, b];
  }

  /** How the line reader reads a title, a blank line and two more lines. */
  lemma FourLines(fileName: string, a: string, b: string)
    requires OneLine(fileName) && OneLine(a) && OneLine(b)
    ensures Parse(Unlines([Title(fileName), "", a, b])) == Absorb(Absorb(Doc([Title(fileName)], map[]), a), b)
  {
    hide Absorb, MatchAt, Strip, Title, Unlines, SplitLines, ParseLines, IsBreak, OneLine;
    TitleIsNoMatch(fileName);
    BlankIsOneLine();
    SplitUnlines([Title(fileName), "", a, b]);
    FourParse(Title(fileName), a, b);
    TitleAndBlank(Title(fileName));
  }

  lemma BlankIsOneLine()
    ensures OneLine("")
  {
  }

  lemma FourParse(title: string, a: string, b: string)
    ensures ParseLines([title, "", a, b]) == Absorb(Absorb(Absorb(Absorb(Doc([], map[]), title), ""), a), b)
  {
    assert ParseLines([]) == Doc([], map[]);
    hide Absorb, ParseLines;
    ParseSnoc([], title);
    ParseSnoc([title], "");
    ParseSnoc([title, ""], a);
    ParseSnoc([title, "", a], b);
    assert [] + [title] == [title] && [title] + [""] == [title, ""];
    assert [title, ""] + [a] == [title, "", a] && [title, "", a] + [b] == [title, "", a, b];
  }

  lemma TitleAndBlank(title: string)
    requires MatchAt(title, 0).None? && Strip(title) != ""
    ensures Absorb(Absorb(Doc([], map[]), title), "") == Doc([title], map[])
  {
    hide MatchAt;
    NoDashNoMatch("", 0);
    assert [] + [title] == [title];
  }

  /** What may stand behind the dash of a line that is no entry for want of a colon. */
  ghost predicate Note(note: string) {
    note != "" && !PySpace(note[0]) && OneLine(note) && ':' !in note
  }

  lemma DashLineIsNoMatch(note: string)
    requires Note(note)
    ensures var top := "- " + note; OneLine(top) && MatchAt(top, 0).None? && Strip(top) != ""
  {
    var top := "- " + note;
    assert OneLine("- ");
    assert ':' !in top;
    FindStops(top, 1, ':');
    PlainCharacters();
    FirstStays(top);
  }

  lemma DashLineAbsorbs(doc: Doc, note: string)
    requires Note(note)
    ensures Absorb(doc, "- " + note) == doc.(header := doc.header + ["- " + note])
  {
    hide MatchAt, Strip;
    DashLineIsNoMatch(note);
  }

  /** Where the readers part on a file that one update alone produced. The key spans two lines,
      the second of which looks like an entry: the line reader files the path under that line's
      key, the scan under the whole key. */
  lemma BrokenKeyParts(fileName: string, note: string, key: string, path: string)
    requires OneLine(fileName) && GoodKey(note) && GoodKey(key) && GoodItem(path)
    ensures var broken := note + "\n" + ("- " + key);
            var text := Run(fileName, [Filing([broken], path)]);
            && Parse(text) == Doc([Title(fileName), "- " + note], map[key := [path]])
            && LookupText(text, key) == [] && LookupText(text, broken) == [path]
  {
    hide Parse, Scan, Strip, PySpace, NormalKeys, MatchAt, Run, Filed, GoodItem, Absorb, Answered;
    var broken := note + "\n" + ("- " + key);
    var filings := [Filing([broken], path)];
    BrokenIsNormal(note, "- ", key);
    BrokenKeyText(fileName, note, "- " + key, path);
    EntryLineOfOne(key, path);
    GoodAlone(path);
    EntryLineIsOneLine(key, [path]);
    DashLineIsNoMatch(note);
    FourLines(fileName, "- " + note, EntryLine(key, [path]));
    DashLineAbsorbs(Doc([Title(fileName)], map[]), note);
    EntryAbsorbs(Doc([Title(fileName), "- " + note], map[]), key, [path]);
    assert [Title(fileName)] + ["- " + note] == [Title(fileName), "- " + note];
    StripKey(key);
    StripKey(broken);
    OneIsAnswered(fileName, broken, path, key);
    OneIsAnswered(fileName, broken, path, broken);
  }

  lemma GoodAlone(path: string)
    requires GoodItem(path)
    ensures GoodItems([path])
  {
  }

  lemma EntryLineOfOne(key: string, path: string)
    ensures EntryLine(key, [path]) == "- " + key + ": [" + path + "]"
  {
  }

  /** A query after a single update under a key without a colon. */
  lemma OneIsAnswered(fileName: string, filed: string, path: string, key: string)
    requires OneLine(fileName) && filed != "" && Trimmed(PySpace, filed) && Lower(filed) == filed && ':' !in filed
        && '\r' !in filed
    requires GoodItem(path)
    ensures LookupText(Run(fileName, [Filing([filed], path)]), key) == if Strip(key) == filed then [path] else []
  {
    hide LookupText, Strip, PySpace, Run;
    var f := Filing([filed], path);
    OneNormalKey(filed);
    GoodIsScan(filed, [path]);
    GoodAlone(path);
    assert ScanItems([path]) ==> ScanItem([path][0]);
    assert [] + [f] == [f];
    LastUpdateIsAnswered(fileName, [], f);
    OneRun(fileName, [], filed, path);
    assert [] + [path] == [path];
  }

  // ----- What is left of it after another update -----

  lemma NoDashNoHit(lines: seq<string>)
    requires lines != [] && (lines[0] == "" || lines[0][0] != '-')
    ensures Readings(lines) == Readings(lines[1..])
  {
    hide SkipBlank, Bracketed, Strip, Items;
    if FirstColon(lines).Some? {
      var cut := FirstColon(lines).value;
      assert cut.before != "" ==> cut.before[0] != '-';
    }
  }

  lemma NoColonHere(line: string, below: seq<string>)
    requires ':' !in line
    ensures FirstColon([line] + below) ==
            match FirstColon(below)
            case None => None
            case Some(cut) => Some(cut.(before := line + "\n" + cut.before))
  {
    FindStops(line, 0, ':');
    assert ([line] + below)[1..] == below;
  }

  lemma DashColon(note: string, gap: seq<string>, key: string, items: seq<string>, below: seq<string>)
    requires ':' !in note && ':' !in key && gap in {[], [""]}
    ensures FirstColon(["- " + note] + (gap + ([EntryLine(key, items)] + below)))
      == Some(Cut("- " + (note + "\n" + Unlines(gap) + "- " + key), " [" + Join(items, ", ") + "]", below))
  {
    hide FirstColon, EntryLine, Join;
    var entry := [EntryLine(key, items)] + below;
    ColonOfEntry(key, items, below);
    if gap == [] {
      assert gap + entry == entry;
      assert Unlines(gap) + "- " + key == "- " + key;
    } else {
      NoColonHere("", entry);
      assert [""][1..] == [];
      assert Unlines(gap) == "" + "\n" + "" == "\n";
      assert Unlines(gap) + "- " + key == "" + "\n" + ("- " + key);
    }
    NoColonHere("- " + note, gap + entry);
    assert "- " + note + "\n" + (Unlines(gap) + "- " + key) == "- " + (note + "\n" + Unlines(gap) + "- " + key);
  }

  /** A dash line takes the key of the entry line below it. */
  lemma DashLineSwallows(note: string, gap: seq<string>, key: string, items: seq<string>, below: seq<string>)
    requires Note(note) && GoodKey(key) && GoodItems(items) && gap in {[], [""]}
    ensures var lines := ["- " + note] + (gap + ([EntryLine(key, items)] + below));
            HitAt(lines) == Some(Hit(Reading(note + "\n" + Unlines(gap) + "- " + key, items), below))
  {
    hide Strip, PySpace, SkipBlank, Bracketed, Inner, Items, FirstColon;
    hide EntryLine, Trimmed, Lower, Unlines, OneLine, Join, GoodItems, ScanItems;
    PlainCharacters();
    GoodIsScan(key, items);
    DashColon(note, gap, key, items, below);
    ListRead(items);
    var after := " [" + Join(items, ", ") + "]";
    SkipNothing(after, below);
    assert ([after] + below)[1..] == below;
    var full := note + "\n" + Unlines(gap) + "- " + key;
    assert ("- " + full)[1..] == " " + full;
    SwallowedKey(note, Unlines(gap), key);
  }

  lemma SwallowedKey(note: string, gap: string, key: string)
    requires Note(note) && GoodKey(key)
    ensures Strip(" " + (note + "\n" + gap + "- " + key)) == note + "\n" + gap + "- " + key
  {
    var all := note + "\n" + gap + "- " + key;
    assert all[0] == note[0] && all[|all| - 1] == key[|key| - 1];
    TrimPadded(PySpace, " ", all, "");
    assert " " + all + "" == " " + all;
  }

  /** A scannable history need not be answered: after filing the path once more, under the key
      of the second line, a query for that key finds nothing. */
  lemma BrokenKeyIsLost(fileName: string, note: string, key: string, path: string)
    requires OneLine(fileName) && GoodKey(note) && GoodKey(key) && GoodItem(path)
    ensures var filings := [Filing([note + "\n" + ("- " + key)], path), Filing([key], path)];
            && (forall f | f in filings :: Scannable(f))
            && Filed(filings, key) == [path] && LookupText(Run(fileName, filings), key) == []
  {
    hide Scannable, GoodKey, GoodItem, Filed, Run, LookupText;
    BrokenIsScannable(note, key, path);
    BrokenThenSecond(fileName, note, key, path);
    assert GoodItems([path]) by { GoodAlone(path); }
    LookupBelowDash(fileName, note, key, [path]);
  }

  lemma BrokenIsScannable(note: string, key: string, path: string)
    requires GoodKey(note) && GoodKey(key) && GoodItem(path)
    ensures Scannable(Filing([note + "\n" + ("- " + key)], path)) && Scannable(Filing([key], path))
  {
    hide PySpace, Strip, Trimmed, Lower, NormalKeys, OneLine, ScanItem, GoodItem;
    BrokenIsNormal(note, "- ", key);
    OneNormalKey(note + "\n" + ("- " + key));
    OneNormalKey(key);
    GoodAlone(path);
    GoodIsScan(key, [path]);
    assert ScanItems([path]) ==> ScanItem([path][0]);
  }

  lemma BrokenThenSecond(fileName: string, note: string, key: string, path: string)
    requires OneLine(fileName) && GoodKey(note) && GoodKey(key) && GoodItem(path)
    ensures var filings := [Filing([note + "\n" + ("- " + key)], path), Filing([key], path)];
            && Filed(filings, key) == [path]
            && Run(fileName, filings) == Unlines([Title(fileName), "- " + note] + [""] + [EntryLine(key, [path])])
  {
    hide Parse, PySpace, MatchAt, LookupText, Run, EntryLine, Title;
    hide Filed, Print, Trimmed, Lower, OneLine, GoodItem, Unlines;
    var broken := note + "\n" + ("- " + key);
    var first, second := Filing([broken], path), Filing([key], path);
    BrokenIsNormal(note, "- ", key);
    assert [first] + [second] == [first, second] && [] + [first] == [first] && [] + [path] == [path];
    EmptyHistory(fileName);
    OneRun(fileName, [], broken, path);
    OneRun(fileName, [first], key, path);
    BrokenKeyParts(fileName, note, key, path);
    assert map[key := [path]][key := [path]] == map[key := [path]];
    PrintedOne([Title(fileName), "- " + note], key, [path]);
  }

  lemma LookupBelowDash(fileName: string, note: string, key: string, items: seq<string>)
    requires OneLine(fileName) && GoodKey(note) && GoodKey(key) && GoodItems(items)
    ensures LookupText(Unlines([Title(fileName), "- " + note] + [""] + [EntryLine(key, items)]), key) == []
  {
    hide Strip, PySpace, HitAt, EntryLine, Scan, Lower;
    var dash, entry := "- " + note, [EntryLine(key, items)];
    var lines := [Title(fileName), dash] + [""] + entry;
    assert entry + [] == entry;
    assert lines[1..] == [dash] + ([""] + (entry + []));
    TitleIsNoMatch(fileName);
    EntryLineIsOneLine(key, items);
    DashLineIsNoMatch(note);
    LookupPrintedLines(lines, key);
    NoDashNoHit(lines);
    DashLineSwallows(note, [""], key, items, []);
    var hit := HitAt(lines[1..]).value;
    StripKey(key);
    assert Readings([]) == [];
    assert Readings(lines[1..]) == [hit.reading] + [] == [hit.reading];
    assert |hit.reading.key| > |key|;
    assert [hit.reading][1..] == [];
  }

  lemma ColonOfLine(b: string, after: string, below: seq<string>)
    requires ':' !in b
    ensures FirstColon([b + ":" + after] + below) == Some(Cut(b, after, below))
  {
    var line := b + ":" + after;
    FindStops(line, 0, ':');
    assert line[|b|] == ':' && forall j | 0 <= j < |b| :: line[j] == b[j];
    assert line[..|b|] == b && line[|b| + 1..] == after;
    assert ([line] + below)[1..] == below;
  }

  // ----- Other lines that the readers take differently -----

  /** A line that starts with a dash and has no colon hides the entry below it from the scan,
      and not from the line reader. */
  lemma {:induction false} DashLineHidesEntry(note: string, key: string, items: seq<string>)
    requires GoodKey(key) && GoodItems(items)
    requires note != "" && Trimmed(PySpace, note) && OneLine(note) && ':' !in note
    ensures var t := Unlines(["- " + note, EntryLine(key, items)]);
            LookupText(t, key) == [] && Parse(t) == Doc(["- " + note], map[key := items])
  {
    hide Strip, PySpace, HitAt, EntryLine, Scan, Lower, MatchAt, Items, Absorb, Parse, Unlines;
    var top, line := "- " + note, EntryLine(key, items);
    DashLineParses(note, key, items);
    EntryLineIsOneLine(key, items);
    assert IsBreak('\n');
    assert [line] + [] == [line] && [top] + ([] + ([line] + [])) == [top, line];
    LookupPrintedLines([top, line], key);
    DashLineSwallows(note, [], key, items, []);
    var hit := HitAt([top, line]).value;
    StripKey(key);
    assert Readings([]) == [] && Readings([top, line]) == [hit.reading] + [];
    assert |hit.reading.key| > |key|;
    assert ([hit.reading] + [])[1..] == [];
  }

  lemma DashLineParses(note: string, key: string, items: seq<string>)
    requires GoodKey(key) && GoodItems(items)
    requires note != "" && Trimmed(PySpace, note) && OneLine(note) && ':' !in note
    ensures Parse(Unlines(["- " + note, EntryLine(key, items)])) == Doc(["- " + note], map[key := items])
  {
    hide Strip, PySpace, EntryLine, Lower, MatchAt, Items, Absorb, Unlines;
    var top, line := "- " + note, EntryLine(key, items);
    EntryLineIsOneLine(key, items);
    DashLineIsNoMatch(note);
    SplitUnlines([top, line]);
    ParseSnoc([], top);
    ParseSnoc([top], line);
    assert [] + [top] == [top] && [top] + [line] == [top, line];
    DashLineAbsorbs(Doc([], map[]), note);
    EntryAbsorbs(Doc([top], map[]), key, items);
  }

  /** A key with a colon may read back as another one, for both readers: `a:[x` as `a`. */
  lemma ColonKeyIsAnotherKey(a: string, x: string, path: string, below: seq<string>)
    requires GoodKey(a) && GoodItem(path) && OneLine(x)
    ensures HitAt([EntryLine(a + ":[" + x, [path])] + below) == Some(Hit(Reading(a, Items(x + ": [" + path)), below))
    ensures forall doc ::
        Absorb(doc, EntryLine(a + ":[" + x, [path])) == doc.(entries := doc.entries[a := Items(x + ": [" + path)])
  {
    hide Strip, PySpace, SkipBlank, Items, FirstColon, Trimmed, Lower, MatchAt, HitAt, OneLine, GoodKey, GoodItem;
    var inner := x + ": [" + path;
    assert EntryLine(a + ":[" + x, [path]) == ("- " + a) + ":" + ("[" + inner + "]");
    assert '\n' !in inner by { PathOnOneLine(x, path); }
    AnotherKeyHit(a, inner, below);
    AnotherKeyMatches(a, inner);
  }

  lemma PathOnOneLine(x: string, path: string)
    requires OneLine(x) && GoodItem(path)
    ensures '\n' !in x + ": [" + path
  {
    assert IsBreak('\n');
  }

  lemma AnotherKeyHit(a: string, inner: string, below: seq<string>)
    requires GoodKey(a)
    ensures HitAt([("- " + a) + ":" + ("[" + inner + "]")] + below) == Some(Hit(Reading(a, Items(inner)), below))
  {
    hide Strip, PySpace, SkipBlank, Items, FirstColon, Trimmed, Lower, OneLine, GoodItems;
    PlainCharacters();
    var after := "[" + inner + "]";
    ColonOfLine("- " + a, after, below);
    AsItIs(after);
    SkipNothing(after, below);
    assert ([after] + below)[1..] == below;
    GoodIsScan(a, []);
    KeyRead(a);
    assert ("- " + a)[1..] == " " + a;
    assert Inner(after) == inner;
  }

  lemma AsItIs(after: string)
    requires |after| >= 2 && after[0] == '[' && after[|after| - 1] == ']'
    ensures Strip(after) == after && Bracketed(after)
  {
    TrimIsTrimmed(PySpace, after);
  }

  lemma AnotherKeyMatches(a: string, inner: string)
    requires GoodKey(a) && '\n' !in inner
    ensures var line := ("- " + a) + ":" + ("[" + inner + "]");
            MatchAt(line, 0).Some? && Normal(MatchAt(line, 0).value.key) == a && MatchAt(line, 0).value.items == inner
  {
    hide Strip, PySpace, Trimmed, MatchAt;
    PlainCharacters();
    var line := ("- " + a) + ":" + ("[" + inner + "]");
    var c := 2 + |a|;
    assert line[2..c] == a && line[c + 2..|line| - 1] == inner;
    forall j | 2 <= j < c ensures line[j] != ':' { assert line[j] == a[j - 2]; }
    forall j | c + 2 <= j < |line| - 1 ensures line[j] != '\n' { assert line[j] == inner[j - c - 2]; }
    assert DerivesKey(line, 0, 2, c);
    assert DerivesItems(line, c + 1, c + 1, |line| - 1, |line|);
    DerivationIsMatched(line, 0, 2, c, c + 1, |line| - 1, |line|);
    StripKey(a);
  }

  lemma {:induction false} PrefixLeq(a: string, more: string)
    ensures Leq(a, a + more)
    decreases |a|
  {
    if a != "" {
      assert (a + more)[1..] == a[1..] + more;
      PrefixLeq(a[1..], more);
    }
  }

  lemma SortedTwo(a: string, b: string, entries: Entries)
    requires entries.Keys == {a, b} && Leq(a, b) && a != b
    ensures SortedKeys(entries) == [a, b]
  {
    hide Leq;
    SortedIsAscending({a, b});
    var s := [a, b];
    assert Elements(s) == {a, b};
    assert Ascending(s);
    AscendingIsUnique(s, Sorted({a, b}));
  }

  /** The file after filing under a good key and then under that key with a colon and more. */
  lemma ColonKeyText(fileName: string, a: string, x: string, q: string, p: string)
    requires OneLine(fileName) && GoodKey(a) && GoodKey(x) && GoodItem(q) && GoodItem(p)
    ensures Run(fileName, [Filing([a], q), Filing([a + ":[" + x], p)])
      == Unlines([Title(fileName), "", EntryLine(a, [q]), EntryLine(a + ":[" + x, [p])])
  {
    hide Parse, PySpace, MatchAt, Run, EntryLine, Title, Trimmed, Lower, Unlines, OneLine, GoodItem, SortedKeys, Leq;
    var b := a + ":[" + x;
    var first, second := Filing([a], q), Filing([b], p);
    ColonKeyIsNormal(a, x);
    assert [first] + [second] == [first, second] && [] + [first] == [first] && [] + [q] == [q] && [] + [p] == [p];
    TitleIsGoodHeader(fileName);
    OneRun(fileName, [], a, q);
    assert map[][a := [q]] == map[a := [q]];
    var doc := Doc([Title(fileName)], map[a := [q]]);
    assert WellFormed(doc) by { GoodAlone(q); }
    PrintedComesBack(doc);
    EmptyHistory(fileName);
    assert Run(fileName, [first]) == Print(doc);
    OneRun(fileName, [first], b, p);
    var entries := map[a := [q]][b := [p]];
    assert Run(fileName, [first, second]) == Print(Doc([Title(fileName)], entries));
    PrefixLeq(a, ":[" + x);
    assert a + (":[" + x) == b;
    SortedTwo(a, b, entries);
    assert [a, b][..1] == [a] && [a][..0] == [];
    assert EntryLines([a], entries) == [] + [EntryLine(a, [q])];
    assert EntryLines([a, b], entries) == [EntryLine(a, [q])] + [EntryLine(b, [p])];
    assert [Title(fileName)] + [""] + ([EntryLine(a, [q])] + [EntryLine(b, [p])]) ==
        [Title(fileName), "", EntryLine(a, [q]), EntryLine(b, [p])];
  }

  lemma ColonKeyIsNormal(a: string, x: string)
    requires GoodKey(a) && GoodKey(x)
    ensures var b := a + ":[" + x; b != "" && b != a && Trimmed(PySpace, b) && Lower(b) == b
    ensures a != "" && Trimmed(PySpace, a) && Lower(a) == a && OneLine(x)
  {
    var b := a + ":[" + x;
    assert |b| > |a| && b[|b| - 1] == x[|x| - 1];
    forall j | 0 <= j < |b| ensures LowerChar(b[j]) == b[j] {
      if j < |a| { assert LowerChar(a[j]) == Lower(a)[j]; }
      if j >= |a| + 2 { assert b[j] == x[j - |a| - 2] && LowerChar(x[j - |a| - 2]) == Lower(x)[j - |a| - 2]; }
    }
  }

  lemma ColonKeyLookup(fileName: string, a: string, x: string, q: string, p: string)
    requires OneLine(fileName) && GoodKey(a) && GoodItem(q) && OneLine(EntryLine(a + ":[" + x, [p]))
    ensures LookupText(Unlines([Title(fileName), "", EntryLine(a, [q]), EntryLine(a + ":[" + x, [p])]), a) == [q]
  {
    hide PySpace, MatchAt, EntryLine, Title, Trimmed, Lower, Unlines, OneLine, GoodItem, Items, HitAt, Scan, Strip;
    var first, second := EntryLine(a, [q]), EntryLine(a + ":[" + x, [p]);
    var lines := [Title(fileName), "", first, second];
    TitleIsNoMatch(fileName);
    BlankIsOneLine();
    GoodAlone(q);
    EntryLineIsOneLine(a, [q]);
    LookupPrintedLines(lines, a);
    NoDashNoHit(lines);
    assert lines[1..] == ["", first, second];
    NoDashNoHit(["", first, second]);
    assert ["", first, second][1..] == [first] + [second];
    GoodIsScan(a, [q]);
    EntryHit(a, [q], [second]);
    StripKey(a);
  }

  /** The readers also part over a key with a colon: the scan still finds the earlier bucket, the
      line reader takes the later line for it. */
  lemma ColonKeyParts(fileName: string, a: string, x: string, q: string, p: string)
    requires OneLine(fileName) && GoodKey(a) && GoodKey(x) && GoodItem(q) && GoodItem(p)
    ensures var text := Run(fileName, [Filing([a], q), Filing([a + ":[" + x], p)]);
            && LookupText(text, a) == [q]
            && Parse(text) == Doc([Title(fileName)], map[a := Items(x + ": [" + p)])
  {
    hide Parse, Run, EntryLine, Title, Unlines, OneLine, GoodKey, GoodItem, Items, LookupText;
    ColonKeyText(fileName, a, x, q, p);
    ColonLineIsOneLine(a, x, p);
    ColonKeyLookup(fileName, a, x, q, p);
    ColonKeyParsed(fileName, a, x, q, p);
  }

  lemma ColonKeyParsed(fileName: string, a: string, x: string, q: string, p: string)
    requires OneLine(fileName) && GoodKey(a) && GoodKey(x) && GoodItem(q) && GoodItem(p)
    ensures Parse(Unlines([Title(fileName), "", EntryLine(a, [q]), EntryLine(a + ":[" + x, [p])]))
      == Doc([Title(fileName)], map[a := Items(x + ": [" + p)])
  {
    hide Parse, PySpace, MatchAt, EntryLine, Title, Trimmed, Lower, Unlines, OneLine, GoodItem, Items, Absorb;
    var first, second := EntryLine(a, [q]), EntryLine(a + ":[" + x, [p]);
    ColonKeyIsNormal(a, x);
    GoodAlone(q);
    EntryLineIsOneLine(a, [q]);
    ColonLineIsOneLine(a, x, p);
    FourLines(fileName, first, second);
    EntryAbsorbs(Doc([Title(fileName)], map[]), a, [q]);
    ColonKeyIsAnotherKey(a, x, p, []);
    assert map[a := [q]][a := Items(x + ": [" + p)] == map[a := Items(x + ": [" + p)];
  }

  lemma ColonLineIsOneLine(a: string, x: string, p: string)
    requires GoodKey(a) && GoodKey(x) && GoodItem(p)
    ensures OneLine(EntryLine(a + ":[" + x, [p]))
  {
    assert OneLine("- ") && OneLine(":[") && OneLine(": [") && OneLine("]");
  }

  /** On a merged file the readers agree on every key exactly when its header is harmless,
      whatever file it was merged into and whatever happened to that before. */
  lemma MergedReadersAgree(content: string, keys: seq<string>, value: string, fileName: string)
    requires OneLine(fileName) && "" !in Parse(content).entries
    requires ReadableKeys(NormalKeys(keys)) && (NormalKeys(keys) != [] ==> GoodItem(value))
    ensures var merged := MergeText(content, NormalKeys(keys), value, fileName);
            (forall key :: LookupText(merged, key) == Bucket(Parse(merged).entries, Strip(key)))
            <==> HarmlessHeader(MergeDoc(content, NormalKeys(keys), value, fileName))
  {
    hide Parse, Print, HarmlessHeader, LookupText, NormalKeys, WellFormed, Strip, GoodItem, ReadableKeys, MergeDoc;
    MergedIsFixedPoint(content, keys, value, fileName);
    ReadersAgreeExactly(MergeDoc(content, NormalKeys(keys), value, fileName));
  }
}
