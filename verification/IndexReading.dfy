/** Reading back what the index writes: the printer and the two readers agree. */
module IndexReading {
  import opened Text
  import opened PythonText
  import opened IndexGrammar
  import opened MarkdownIndex

  // ----- Items -----

  ghost predicate GoodItems(items: seq<string>) {
    forall v | v in items :: GoodItem(v)
  }

  ghost predicate ScanItems(items: seq<string>) {
    forall v | v in items :: ScanItem(v)
  }

  /** What the line reader can read back, the scan can find. */
  lemma GoodIsScan(key: string, items: seq<string>)
    ensures GoodKey(key) ==> ScanKey(key)
    ensures GoodItems(items) ==> ScanItems(items)
  {
    forall v | v in items && GoodItem(v) ensures ScanItem(v) { PlainCharacters(); }
  }

  lemma ScanParts(items: seq<string>)
    requires |items| > 0 && ScanItems(items)
    ensures ScanItem(items[0]) && ScanItems(items[1..])
  {
    hide ScanItem;
    assert items[0] in items;
  }

  lemma StripItem(v: string)
    requires ScanItem(v)
    ensures Strip(v) == v && Strip(" " + v) == v
  {
    TrimIsTrimmed(PySpace, v);
    TrimPadded(PySpace, " ", v, "");
    assert " " + v + "" == " " + v;
  }

  lemma NoComma(v: string)
    requires ScanItem(v)
    ensures ',' !in v && ',' !in " " + v
  {
    hide Trimmed;
  }

  lemma JoinFirst(items: seq<string>)
    requires |items| > 0
    ensures |items| == 1 ==> Join(items, ", ") == items[0]
    ensures |items| > 1 ==> Join(items, ", ") == items[0] + [','] + (" " + Join(items[1..], ", "))
  {
    if |items| > 1 { CommaParts(items[0], Join(items[1..], ", ")); }
  }

  lemma CommaParts(v: string, rest: string)
    ensures v + ", " + rest == v + [','] + (" " + rest)
  {
    assert ", " + rest == [','] + (" " + rest);
    assert v + ", " + rest == v + (", " + rest);
    assert v + ([','] + (" " + rest)) == v + [','] + (" " + rest);
  }

  lemma NonBlankFirst(piece: string, rest: seq<string>)
    requires Strip(piece) != ""
    ensures NonBlank([piece] + rest) == [Strip(piece)] + NonBlank(rest)
  {
    hide Strip;
    assert ([piece] + rest)[1..] == rest;
  }

  lemma {:induction false} PiecesComeBack(items: seq<string>)
    requires |items| > 0 && ScanItems(items)
    ensures NonBlank(Split(Join(items, ", "), ',')) == items
    ensures NonBlank(Split(" " + Join(items, ", "), ',')) == items
    decreases |items|
  {
    hide Strip, Split, Join, NonBlank, ScanItems, Trimmed;
    var v, body := items[0], Join(items, ", ");
    ScanParts(items);
    StripItem(v);
    NoComma(v);
    JoinFirst(items);
    assert items == [v] + items[1..];
    if |items| == 1 {
      SplitNone(v, ',');
      SplitNone(" " + v, ',');
      OnePiece(v);
      OnePiece(" " + v);
    } else {
      var rest := " " + Join(items[1..], ", ");
      PiecesComeBack(items[1..]);
      SplitHead(v, ',', rest);
      assert " " + body == (" " + v) + [','] + rest;
      SplitHead(" " + v, ',', rest);
      NonBlankFirst(v, Split(rest, ','));
      NonBlankFirst(" " + v, Split(rest, ','));
    }
  }

  lemma OnePiece(piece: string)
    requires Strip(piece) != ""
    ensures NonBlank([piece]) == [Strip(piece)]
  {
    NonBlankFirst(piece, []);
    assert [piece] + [] == [piece];
  }

  lemma {:induction false} JoinedIsTrimmed(items: seq<string>)
    requires ScanItems(items)
    ensures Trimmed(PySpace, Join(items, ", ")) && '\n' !in Join(items, ", ") && '\r' !in Join(items, ", ")
    ensures items != [] ==> Join(items, ", ") != ""
    decreases |items|
  {
    if items != [] {
      ScanParts(items);
      if |items| > 1 { JoinedIsTrimmed(items[1..]); }
    }
  }

  lemma {:induction false} JoinedIsOneLine(items: seq<string>)
    requires GoodItems(items)
    ensures OneLine(Join(items, ", "))
    decreases |items|
  {
    if items != [] {
      assert items[0] in items;
      if |items| > 1 {
        JoinedIsOneLine(items[1..]);
        assert !IsBreak(',') && !IsBreak(' ');
      }
    }
  }

  lemma ItemsComeBack(items: seq<string>)
    requires ScanItems(items)
    ensures Items(Join(items, ", ")) == items
  {
    JoinedIsTrimmed(items);
    TrimIsTrimmed(PySpace, Join(items, ", "));
    if items != [] { PiecesComeBack(items); }
  }

  // ----- One entry line -----

  /** `t` holds this entry line from `i` on, and the line ends there. */
  ghost predicate HasLine(t: string, i: nat, line: string) {
    && i + |line| <= |t| && t[i..i + |line|] == line
    && (i + |line| == |t| || t[i + |line|] == '\n')
  }

  lemma EntryLineDerives(t: string, i: nat, key: string, items: seq<string>)
    requires ScanKey(key) && '\n' !in Join(items, ", ") && HasLine(t, i, EntryLine(key, items))
    ensures var c, n := i + 2 + |key|, i + |EntryLine(key, items)|;
            && Derives(t, i, i + 2, c, c + 2, n - 1, n)
            && t[i + 2..c] == key && t[c + 3..n - 1] == Join(items, ", ")
  {
    hide PySpace, Join, Trimmed;
    var line, body := EntryLine(key, items), Join(items, ", ");
    var c, n := i + 2 + |key|, i + |line|;
    assert line == "- " + key + (": [" + body + "]");
    assert forall j | i <= j < n :: t[j] == line[j - i];
    assert t[i + 2..c] == line[2..2 + |key|] == key;
    assert t[c + 3..n - 1] == line[5 + |key|..|line| - 1] == body;
    forall j | i + 2 <= j < c ensures t[j] != ':' { assert t[j] == key[j - i - 2]; }
    forall j | c + 3 <= j < n - 1 ensures t[j] != '\n' { assert t[j] == body[j - c - 3]; }
    PlainCharacters();
    assert DerivesKey(t, i, i + 2, c);
    assert DerivesItems(t, c + 1, c + 2, n - 1, n);
  }

  lemma StripKey(key: string)
    requires Trimmed(PySpace, key)
    ensures Strip(key) == key
  {
    TrimIsTrimmed(PySpace, key);
  }

  lemma EntryLineMatches(t: string, i: nat, key: string, items: seq<string>)
    requires ScanKey(key) && ScanItems(items) && HasLine(t, i, EntryLine(key, items))
    ensures MatchAt(t, i).Some?
    ensures var m, n := MatchAt(t, i).value, i + |EntryLine(key, items)|;
            Strip(m.key) == key && Items(m.items) == items && n <= m.end == MatchEnd(t, n)
  {
    hide MatchAt, MatchEnd, Items, PySpace, Strip, DerivesKey, DerivesItems;
    var c, n := i + 2 + |key|, i + |EntryLine(key, items)|;
    JoinedIsTrimmed(items);
    EntryLineDerives(t, i, key, items);
    DerivationIsMatched(t, i, i + 2, c, c + 2, n - 1, n);
    StripKey(key);
    ItemsComeBack(items);
  }

  lemma EntryLineIsOneLine(key: string, items: seq<string>)
    requires GoodKey(key) && GoodItems(items)
    ensures OneLine(EntryLine(key, items))
  {
    JoinedIsOneLine(items);
    assert OneLine("- ") && OneLine(": [") && OneLine("]");
  }

  // ----- Line by line -----

  /** A free-standing line that stays one. */
  ghost predicate GoodHeader(h: string) {
    OneLine(h) && Strip(h) != "" && MatchAt(h, 0).None?
  }

  /** A document that survives being printed. */
  ghost predicate WellFormed(doc: Doc) {
    && (forall h | h in doc.header :: GoodHeader(h))
    && (forall k | k in doc.entries :: GoodKey(k) && GoodItems(doc.entries[k]))
  }

  lemma ParseSnoc(lines: seq<string>, line: string)
    ensures ParseLines(lines + [line]) == Absorb(ParseLines(lines), line)
  {
    assert (lines + [line])[..|lines|] == lines;
  }

  lemma {:induction false} HeaderParses(header: seq<string>)
    requires forall h | h in header :: GoodHeader(h)
    ensures ParseLines(header) == Doc(header, map[])
    decreases |header|
  {
    if header != [] {
      var front, last := header[..|header| - 1], header[|header| - 1];
      assert last in header && header == front + [last];
      HeaderParses(front);
      ParseSnoc(front, last);
    }
  }

  lemma EntryAbsorbs(doc: Doc, key: string, items: seq<string>)
    requires GoodKey(key) && GoodItems(items)
    ensures Absorb(doc, EntryLine(key, items)) == Doc(doc.header, doc.entries[key := items])
  {
    var line := EntryLine(key, items);
    assert line[0..0 + |line|] == line;
    GoodIsScan(key, items);
    EntryLineMatches(line, 0, key, items);
  }

  /** The last entry line, and what reading it behind other lines adds. */
  lemma LastEntryParses(before: seq<string>, keys: seq<string>, entries: Entries) returns (line: string)
    requires keys != [] && forall k | k in keys :: k in entries
    requires var key := keys[|keys| - 1]; GoodKey(key) && GoodItems(entries[key])
    ensures EntryLines(keys, entries) == EntryLines(keys[..|keys| - 1], entries) + [line]
    ensures var key, doc := keys[|keys| - 1], ParseLines(before);
            ParseLines(before + [line]) == Doc(doc.header, doc.entries[key := entries[key]])
  {
    var key := keys[|keys| - 1];
    line := EntryLine(key, entries[key]);
    EntryAbsorbs(ParseLines(before), key, entries[key]);
    ParseSnoc(before, line);
  }

  ghost function Only(entries: Entries, keys: seq<string>): Entries {
    map k | k in keys && k in entries :: entries[k]
  }

  lemma OnlySnoc(entries: Entries, keys: seq<string>)
    requires keys != [] && keys[|keys| - 1] in entries
    ensures var key := keys[|keys| - 1]; Only(entries, keys) == Only(entries, keys[..|keys| - 1])[key := entries[key]]
  {
    var front, key := keys[..|keys| - 1], keys[|keys| - 1];
    assert keys == front + [key];
  }

  lemma {:induction false} EntriesParse(header: seq<string>, keys: seq<string>, entries: Entries)
    requires WellFormed(Doc(header, entries)) && forall k | k in keys :: k in entries
    ensures ParseLines(header + [""] + EntryLines(keys, entries)) == Doc(header, Only(entries, keys))
    decreases |keys|
  {
    if keys == [] {
      HeaderParses(header);
      ParseSnoc(header, "");
      assert header + [""] + [] == header + [""];
    } else {
      var front, key := keys[..|keys| - 1], keys[|keys| - 1];
      var before := header + [""] + EntryLines(front, entries);
      EntriesParse(header, front, entries);
      assert key in keys && key in Doc(header, entries).entries;
      var line := LastEntryParses(before, keys, entries);
      assert header + [""] + EntryLines(keys, entries) == before + [line];
      OnlySnoc(entries, keys);
    }
  }

  lemma {:induction false} PrintedAreOneLine(keys: seq<string>, entries: Entries)
    requires forall k | k in keys :: k in entries && GoodKey(k) && GoodItems(entries[k])
    ensures forall l | l in EntryLines(keys, entries) :: OneLine(l)
    decreases |keys|
  {
    if keys != [] {
      var front, key := keys[..|keys| - 1], keys[|keys| - 1];
      assert key in keys;
      PrintedAreOneLine(front, entries);
      EntryLineIsOneLine(key, entries[key]);
    }
  }

  lemma PrintedLines(doc: Doc)
    requires WellFormed(doc)
    ensures SplitLines(Print(doc)) == Lines(doc)
  {
    PrintedAreOneLine(SortedKeys(doc.entries), doc.entries);
    forall l | l in Lines(doc) ensures OneLine(l) {
      assert l in doc.header || l == "" || l in EntryLines(SortedKeys(doc.entries), doc.entries);
    }
    SplitUnlines(Lines(doc));
  }

  lemma PrintedComesBack(doc: Doc)
    requires WellFormed(doc)
    ensures Parse(Print(doc)) == doc
  {
    var keys := SortedKeys(doc.entries);
    PrintedLines(doc);
    EntriesParse(doc.header, keys, doc.entries);
    assert Only(doc.entries, keys) == doc.entries;
  }

  lemma LowerIsNormal(s: string)
    requires Trimmed(PySpace, s) && OneLine(s)
    ensures Lower(Lower(s)) == Lower(s) && Trimmed(PySpace, Lower(s)) && OneLine(Lower(s))
    ensures ':' !in s ==> ':' !in Lower(s)
  {
    assert forall i | 0 <= i < |s| :: PySpace(s[i]) == PySpace(Lower(s)[i]);
    assert forall i | 0 <= i < |s| :: IsBreak(s[i]) == IsBreak(Lower(s)[i]);
    assert forall i | 0 <= i < |s| :: (s[i] == ':') == (Lower(s)[i] == ':');
  }

  lemma {:induction false} NonBlankAreGood(pieces: seq<string>)
    requires forall p | p in pieces :: OneLine(p) && ',' !in p
    ensures GoodItems(NonBlank(pieces))
    decreases |pieces|
  {
    if pieces != [] {
      var p := pieces[0];
      assert p in pieces;
      NonBlankAreGood(pieces[1..]);
      TrimIsTrimmed(PySpace, p);
      TrimKeepsOut(PySpace, p, ',');
      var a, b := TrimIsSlice(PySpace, p);
    }
  }

  lemma {:induction false} PiecesAreOneLine(s: string)
    requires OneLine(s)
    ensures forall p | p in Split(s, ',') :: OneLine(p)
    decreases |s|
  {
    if s != "" {
      PiecesAreOneLine(s[1..]);
      assert Split(s[1..], ',')[0] in Split(s[1..], ',');
    }
  }

  /** A key as the line reader returns it. */
  ghost predicate ReadableKey(k: string) {
    Trimmed(PySpace, k) && Lower(k) == k && ':' !in k && OneLine(k)
  }

  lemma NormalIsReadable(key: string)
    requires OneLine(key) && ':' !in key
    ensures ReadableKey(Normal(key))
  {
    TrimIsTrimmed(PySpace, key);
    TrimKeepsOut(PySpace, key, ':');
    var a, b := TrimIsSlice(PySpace, key);
    LowerIsNormal(Strip(key));
  }

  lemma {:induction false} ItemsAreGood(raw: string)
    requires OneLine(raw)
    ensures GoodItems(Items(raw))
  {
    hide PySpace, IsBreak, NonBlank;
    var a, b := TrimIsSlice(PySpace, raw);
    JoinSplit(Strip(raw), ',');
    PiecesAreOneLine(Strip(raw));
    NonBlankAreGood(Split(Strip(raw), ','));
  }

  lemma MatchedIsReadable(line: string)
    requires OneLine(line) && MatchAt(line, 0).Some?
    ensures var m := MatchAt(line, 0).value; ReadableKey(Normal(m.key)) && GoodItems(Items(m.items))
  {
    hide MatchAt, PySpace, IsBreak, Normal, Items, ReadableKey, GoodItems;
    var m := MatchAt(line, 0).value;
    var k, c, p, e := MatchAtIsDerivation(line, 0);
    assert OneLine(m.key) && OneLine(m.items);
    assert ':' !in m.key;
    NormalIsReadable(m.key);
    ItemsAreGood(m.items);
  }

  lemma {:induction false} ParsedIsReadable(lines: seq<string>)
    requires forall l | l in lines :: OneLine(l)
    ensures var doc := ParseLines(lines);
            && (forall h | h in doc.header :: GoodHeader(h))
            && (forall k | k in doc.entries :: ReadableKey(k) && GoodItems(doc.entries[k]))
    decreases |lines|
  {
    if lines != [] {
      var last := lines[|lines| - 1];
      assert last in lines;
      ParsedIsReadable(lines[..|lines| - 1]);
      if MatchAt(last, 0).Some? { MatchedIsReadable(last); }
    }
  }

  // ----- A blank key -----

  lemma BlankKeyNoMatch(items: seq<string>)
    ensures MatchAt(EntryLine("", items), 0).None?
  {
    hide ItemsAt, MatchEnd, Join;
    PlainCharacters();
    var line := EntryLine("", items);
    assert line == "- : [" + Join(items, ", ") + "]";
    assert line[0] == '-' && line[1] == ' ' && line[2] == ':';
    assert SkipSpace(line, 2) == 2 && SkipSpace(line, 1) == 2;
    assert Find(line, 2, ':') == 2 && Find(line, 1, ':') == 2;
  }

  lemma {:induction false} NoBlankKey(lines: seq<string>)
    requires forall l | l in lines && MatchAt(l, 0).Some? :: Normal(MatchAt(l, 0).value.key) != ""
    ensures "" !in ParseLines(lines).entries
    decreases |lines|
  {
    hide MatchAt, Normal, Items;
    if lines != [] {
      assert lines[|lines| - 1] in lines;
      NoBlankKey(lines[..|lines| - 1]);
    }
  }

  lemma {:induction false} EntryLineOf(keys: seq<string>, entries: Entries, l: string) returns (k: string)
    requires (forall k | k in keys :: k in entries) && l in EntryLines(keys, entries)
    ensures k in keys && l == EntryLine(k, entries[k])
    decreases |keys|
  {
    hide EntryLine;
    var front := keys[..|keys| - 1];
    if l in EntryLines(front, entries) { k := EntryLineOf(front, entries, l); } else { k := keys[|keys| - 1]; }
  }

  lemma {:induction false} ReadableAreOneLine(keys: seq<string>, entries: Entries)
    requires forall k | k in keys :: k in entries && ReadableKey(k) && GoodItems(entries[k])
    ensures forall l | l in EntryLines(keys, entries) :: OneLine(l)
    decreases |keys|
  {
    hide EntryLine, ReadableKey, GoodItems;
    if keys != [] {
      var key := keys[|keys| - 1];
      assert key in keys;
      ReadableAreOneLine(keys[..|keys| - 1], entries);
      assert OneLine(EntryLine(key, entries[key])) by { ReadableIsOneLine(key, entries[key]); }
    }
  }

  lemma ReadableIsOneLine(key: string, items: seq<string>)
    requires ReadableKey(key) && GoodItems(items)
    ensures OneLine(EntryLine(key, items))
  {
    JoinedIsOneLine(items);
    assert OneLine("- ") && OneLine(": [") && OneLine("]");
  }

  /** An entry line reads back under its own key, which is not blank, or not at all. */
  lemma EntryLineKey(key: string, items: seq<string>)
    requires ReadableKey(key) && GoodItems(items)
    ensures var line := EntryLine(key, items); MatchAt(line, 0).Some? ==> Normal(MatchAt(line, 0).value.key) != ""
  {
    hide MatchAt, ScanItems, GoodItems, Items;
    if key == "" {
      BlankKeyNoMatch(items);
    } else {
      var line := EntryLine(key, items);
      assert line[0..0 + |line|] == line;
      GoodIsScan(key, items);
      EntryLineMatches(line, 0, key, items);
    }
  }

  lemma BlankKeyIsLost(doc: Doc)
    requires "" in doc.entries
    ensures Parse(Print(doc)) != doc
  {
    hide MatchAt, Normal, ReadableKey, GoodItems, EntryLine, Strip;
    SplitLinesAreLines(Print(doc));
    ParsedIsReadable(SplitLines(Print(doc)));
    if Parse(Print(doc)) == doc {
      var keys := SortedKeys(doc.entries);
      ReadableAreOneLine(keys, doc.entries);
      forall l | l in Lines(doc) ensures OneLine(l) && (MatchAt(l, 0).Some? ==> Normal(MatchAt(l, 0).value.key) != "") {
        NoDashNoMatch("", 0);
        if l !in doc.header && l != "" {
          var k := EntryLineOf(keys, doc.entries, l);
          EntryLineKey(k, doc.entries[k]);
        }
      }
      SplitUnlines(Lines(doc));
      NoBlankKey(Lines(doc));
    }
  }

  /** A document is read back line by line from its printed form exactly when it is well formed:
      its keys are not blank and hold no colon and no line break, its paths no comma. */
  lemma PrintThenParse(doc: Doc)
    ensures Parse(Print(doc)) == doc <==> WellFormed(doc)
  {
    if WellFormed(doc) {
      PrintedComesBack(doc);
    } else if "" in doc.entries {
      BlankKeyIsLost(doc);
    } else {
      SplitLinesAreLines(Print(doc));
      ParsedIsReadable(SplitLines(Print(doc)));
    }
  }
}
