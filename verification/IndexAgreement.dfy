/** When the two readers of an index file agree, and when a query answers what was filed. */
module IndexAgreement {
  import opened Wrappers
  import opened Text
  import opened PythonText
  import opened Ordering
  import opened IndexGrammar
  import opened MarkdownIndex
  import opened IndexReading
  import opened IndexLines
  import opened IndexHistory

  // ----- What the scan reads in the header -----

  /** The entries that start in the header, and the lines that are left below the last of them. */
  datatype Front = Front(readings: seq<Reading>, left: seq<string>)

  function ReadHeader(header: seq<string>, tail: seq<string>): Front {
    if header == [] then Front([], tail)
    else match HitAt(header + tail)
      case None => ReadHeader(header[1..], tail)
      case Some(hit) =>
        if |hit.below| <= |tail| then Front([hit.reading], hit.below)
        else
          var front := ReadHeader(header[|header| + |tail| - |hit.below|..], tail);
          Front([hit.reading] + front.readings, front.left)
  }

  /** The lines printed below the header. */
  function TailOf(entries: Entries): seq<string> {
    [""] + EntryLines(SortedKeys(entries), entries)
  }

  /** No entry that the scan reads in the header holds other items than the index has under its
      key; and if the last of them runs on into the first line of the index proper, the bucket
      of that line is empty or was read in the header already. */
  ghost predicate HarmlessHeader(doc: Doc) {
    var tail, keys := TailOf(doc.entries), SortedKeys(doc.entries);
    var front := ReadHeader(doc.header, tail);
    && (forall key | HasKey(front.readings, key) :: FirstItems(front.readings, key) == Bucket(doc.entries, key))
    && (front.left != tail && keys != [] ==> doc.entries[keys[0]] == [] || HasKey(front.readings, keys[0]))
  }

  /** A line that can be taken for the start of an entry: a dash and white space. */
  predicate Opens(line: string) {
    line != "" && line[0] == '-' && (|line| == 1 || PySpace(line[1]))
  }

  // ----- Lines below a hit -----

  lemma {:induction false} CutBelow(lines: seq<string>)
    requires FirstColon(lines).Some?
    ensures var below := FirstColon(lines).value.below; below == lines[|lines| - |below|..]
    decreases |lines|
  {
    if Find(lines[0], 0, ':') == |lines[0]| { CutBelow(lines[1..]); }
  }

  lemma {:induction false} SkipBelow(lines: seq<string>)
    ensures SkipBlank(lines) == lines[|lines| - |SkipBlank(lines)|..]
    decreases |lines|
  {
    hide Strip;
    if lines != [] && Strip(lines[0]) == "" { SkipBelow(lines[1..]); }
  }

  /** A hit leaves the last of the lines it was read from. */
  lemma HitBelow(lines: seq<string>)
    requires HitAt(lines).Some?
    ensures var below := HitAt(lines).value.below; below == lines[|lines| - |below|..]
  {
    hide FirstColon, SkipBlank, Bracketed, Strip, Items;
    var cut := FirstColon(lines).value;
    var parts := [cut.after] + cut.below;
    CutBelow(lines);
    SkipBelow(parts);
    var rest := SkipBlank(parts);
    assert rest[1..] == parts[|parts| - |rest|..][1..] == parts[|parts| - |rest| + 1..];
    assert parts[|parts| - |rest| + 1..] == cut.below[|parts| - |rest|..];
  }

  lemma {:induction false} HeaderReadFirst(header: seq<string>, tail: seq<string>)
    ensures var front := ReadHeader(header, tail);
            Readings(header + tail) == front.readings + Readings(front.left)
    decreases |header|
  {
    hide HitAt;
    var lines := header + tail;
    if header == [] {
      assert lines == tail;
    } else {
      assert lines[1..] == header[1..] + tail;
      if HitAt(lines).None? {
        HeaderReadFirst(header[1..], tail);
      } else {
        HitBelow(lines);
        var below := HitAt(lines).value.below;
        if |below| > |tail| {
          var kept := header[|lines| - |below|..];
          assert below == kept + tail;
          HeaderReadFirst(kept, tail);
        }
      }
    }
  }

  // ----- Entry lines -----

  lemma FirstStays(line: string)
    requires line != "" && !PySpace(line[0])
    ensures Strip(line) != "" && Strip(line)[0] == line[0]
  {
    hide PySpace;
    var a, b := TrimIsSlice(PySpace, line);
    assert forall j | 0 <= j < a :: line[..a][j] == line[j];
    assert forall j | b <= j < |line| :: line[b..][j - b] == line[j];
  }

  /** The half of an entry line behind its colon. */
  lemma ListRead(items: seq<string>)
    requires ScanItems(items)
    ensures var after := " [" + Join(items, ", ") + "]";
            Strip(after) != "" && Bracketed(after) && Items(Inner(after)) == items
  {
    hide PySpace, Items, Trimmed, ScanItems, Strip;
    PlainCharacters();
    var body := Join(items, ", ");
    var after := " [" + body + "]";
    assert after == " " + ("[" + body + "]") + "";
    PaddedList(body);
    var u := "[" + body + "]";
    assert Inner(after) == u[1..|u| - 1] == body;
    ItemsComeBack(items);
  }

  lemma PaddedList(body: string)
    ensures Strip(" " + ("[" + body + "]") + "") == "[" + body + "]"
  {
    TrimPadded(PySpace, " ", "[" + body + "]", "");
  }

  lemma KeyRead(key: string)
    requires ScanKey(key)
    ensures Strip(" " + key) == key
  {
    TrimPadded(PySpace, " ", key, "");
    assert " " + key + "" == " " + key;
  }

  lemma ColonOfEntry(key: string, items: seq<string>, below: seq<string>)
    requires ':' !in key
    ensures FirstColon([EntryLine(key, items)] + below) == Some(Cut("- " + key, " [" + Join(items, ", ") + "]", below))
  {
    var line, after := EntryLine(key, items), " [" + Join(items, ", ") + "]";
    assert line == ("- " + key) + ":" + after;
    FindStops(line, 0, ':');
    var n := 2 + |key|;
    assert line[n] == ':' && forall j | 0 <= j < n :: line[j] == ("- " + key)[j];
    assert Find(line, 0, ':') == n;
    assert line[..n] == "- " + key && line[n + 1..] == after;
    assert ([line] + below)[1..] == below;
  }

  lemma EntryHit(key: string, items: seq<string>, below: seq<string>)
    requires ScanKey(key) && ScanItems(items)
    ensures HitAt([EntryLine(key, items)] + below) == Some(Hit(Reading(key, items), below))
  {
    hide Strip, PySpace, ScanItems, Trimmed, Bracketed, Inner, Items, FirstColon;
    PlainCharacters();
    ColonOfEntry(key, items, below);
    ListRead(items);
    KeyRead(key);
    var after := " [" + Join(items, ", ") + "]";
    assert ("- " + key)[1..] == " " + key;
    assert ([after] + below)[1..] == below;
  }

  lemma {:induction false} EntriesRead(keys: seq<string>, entries: Entries, key: string)
    requires forall k | k in keys :: k in entries && ScanKey(k) && ScanItems(entries[k])
    ensures FirstItems(Readings(EntryLines(keys, entries)), key) == if key in keys then entries[key] else []
    decreases |keys|
  {
    hide HitAt, ScanKey, ScanItems, EntryLine;
    if keys != [] {
      var k, more := keys[0], keys[1..];
      EntryLinesFront(keys, entries);
      EntryHit(k, entries[k], EntryLines(more, entries));
      EntriesRead(more, entries, key);
      assert keys == [k] + more;
      var rs := Readings(EntryLines(keys, entries));
      assert rs == [Reading(k, entries[k])] + Readings(EntryLines(more, entries));
      assert rs[1..] == Readings(EntryLines(more, entries));
    }
  }

  // ----- Where the header ends -----

  /** Reading on from the header, the first colon is in the header or in the first entry line. */
  lemma {:induction false} CutIntoTail(header: seq<string>, keys: seq<string>, entries: Entries)
    requires forall k | k in keys :: k in entries && ScanKey(k) && ScanItems(entries[k])
    ensures var tail := [""] + EntryLines(keys, entries);
            FirstColon(header + tail).Some? ==>
            var cut := FirstColon(header + tail).value;
            |cut.below| >= |tail| || (keys != [] && cut.below == tail[2..] && Strip(cut.after) != "")
    decreases |header|
  {
    hide Strip, ScanItems;
    var tail := [""] + EntryLines(keys, entries);
    if header == [] {
      assert header + tail == tail && tail[1..] == EntryLines(keys, entries);
      if keys != [] {
        EntryLinesFront(keys, entries);
        assert keys[0] in keys;
        ColonOfEntry(keys[0], entries[keys[0]], EntryLines(keys[1..], entries));
        ListRead(entries[keys[0]]);
        assert tail[2..] == EntryLines(keys[1..], entries);
      }
    } else {
      assert (header + tail)[1..] == header[1..] + tail;
      CutIntoTail(header[1..], keys, entries);
    }
  }

  lemma {:induction false} SkipIntoTail(pre: seq<string>, keys: seq<string>, entries: Entries)
    requires forall k | k in keys :: k in entries
    ensures var tail := [""] + EntryLines(keys, entries);
            var rest := SkipBlank(pre + tail);
            |rest| > |tail| || rest == [] || !Bracketed(rest[0])
    decreases |pre|
  {
    var tail := [""] + EntryLines(keys, entries);
    if pre == [] {
      assert pre + tail == tail && tail[1..] == EntryLines(keys, entries);
      if keys != [] {
        EntryLinesFront(keys, entries);
        PlainCharacters();
        FirstStays(EntryLine(keys[0], entries[keys[0]]));
      }
    } else {
      assert (pre + tail)[1..] == pre[1..] + tail;
      SkipIntoTail(pre[1..], keys, entries);
    }
  }

  /** So an entry that starts in the header ends there or takes the first entry line with it. */
  lemma HitIntoTail(header: seq<string>, keys: seq<string>, entries: Entries)
    requires forall k | k in keys :: k in entries && ScanKey(k) && ScanItems(entries[k])
    requires HitAt(header + ([""] + EntryLines(keys, entries))).Some?
    ensures var tail := [""] + EntryLines(keys, entries);
            var below := HitAt(header + tail).value.below;
            |below| <= |tail| ==> below == tail || (keys != [] && below == tail[2..])
  {
    hide FirstColon, SkipBlank, Bracketed, Strip, Items, ScanKey, ScanItems;
    var tail := [""] + EntryLines(keys, entries);
    var lines := header + tail;
    CutIntoTail(header, keys, entries);
    HitBelow(lines);
    CutBelow(lines);
    var cut := FirstColon(lines).value;
    var parts := [cut.after] + cut.below;
    if |cut.below| >= |tail| {
      var n := |cut.below| - |tail|;
      assert cut.below == lines[|lines| - |cut.below|..];
      assert cut.below[n..] == tail;
      assert parts == ([cut.after] + cut.below[..n]) + tail;
      SkipIntoTail([cut.after] + cut.below[..n], keys, entries);
    } else {
      SkipNothing(cut.after, cut.below);
      assert parts[1..] == cut.below;
    }
  }

  lemma SkipNothing(line: string, below: seq<string>)
    requires Strip(line) != ""
    ensures SkipBlank([line] + below) == [line] + below
  {
  }

  lemma {:induction false} HeaderLeaves(header: seq<string>, keys: seq<string>, entries: Entries)
    requires forall k | k in keys :: k in entries && ScanKey(k) && ScanItems(entries[k])
    ensures var tail := [""] + EntryLines(keys, entries);
            var left := ReadHeader(header, tail).left;
            left == tail || (keys != [] && left == tail[2..])
    decreases |header|
  {
    hide HitAt, ScanKey, ScanItems;
    var tail := [""] + EntryLines(keys, entries);
    if header != [] {
      if HitAt(header + tail).None? {
        HeaderLeaves(header[1..], keys, entries);
      } else {
        HitIntoTail(header, keys, entries);
        var below := HitAt(header + tail).value.below;
        if |below| > |tail| { HeaderLeaves(header[|header| + |tail| - |below|..], keys, entries); }
      }
    }
  }

  // ----- When the readers agree -----

  lemma DocIsOneLines(doc: Doc)
    requires WellFormed(doc)
    ensures (forall l | l in Lines(doc) :: OneLine(l)) && Lines(doc) == doc.header + TailOf(doc.entries)
    ensures forall k | k in doc.entries :: ScanKey(k) && ScanItems(doc.entries[k])
  {
    hide GoodKey, GoodItems, ScanKey, ScanItems, MatchAt, Strip;
    PrintedAreOneLine(SortedKeys(doc.entries), doc.entries);
    forall l | l in Lines(doc) ensures OneLine(l) {
      assert l in doc.header || l == "" || l in EntryLines(SortedKeys(doc.entries), doc.entries);
    }
    forall k | k in doc.entries ensures ScanKey(k) && ScanItems(doc.entries[k]) { GoodIsScan(k, doc.entries[k]); }
    assert doc.header + [""] + EntryLines(SortedKeys(doc.entries), doc.entries) == doc.header + TailOf(doc.entries);
  }

  /** What a query finds in a printed document: first what the header holds, then the entries,
      without the first one if the header took it. */
  lemma LookupInPrinted(doc: Doc, key: string)
    requires WellFormed(doc)
    ensures var front, keys := ReadHeader(doc.header, TailOf(doc.entries)), SortedKeys(doc.entries);
            LookupText(Print(doc), key) ==
              if HasKey(front.readings, Strip(key)) then FirstItems(front.readings, Strip(key))
              else if front.left != TailOf(doc.entries) && keys != [] && Strip(key) == keys[0] then []
              else Bucket(doc.entries, Strip(key))
  {
    hide GoodKey, GoodItems, ScanKey, ScanItems, MatchAt, Strip;
    hide ReadHeader, HitAt, SortedKeys, Scan, LookupText, EntryLines;
    var tail, keys := TailOf(doc.entries), SortedKeys(doc.entries);
    var front := ReadHeader(doc.header, tail);
    DocIsOneLines(doc);
    LookupPrintedLines(Lines(doc), key);
    HeaderReadFirst(doc.header, tail);
    HeaderLeaves(doc.header, keys, doc.entries);
    FirstOfBoth(front.readings, Readings(front.left), Strip(key));
    if front.left == tail { WholeTail(doc.entries, Strip(key)); } else { CutTail(doc.entries, Strip(key)); }
  }

  lemma WholeTail(entries: Entries, key: string)
    requires forall k | k in entries :: ScanKey(k) && ScanItems(entries[k])
    ensures FirstItems(Readings(TailOf(entries)), key) == Bucket(entries, key)
  {
    hide ScanKey, ScanItems, SortedKeys, Readings, EntryLines;
    BlankRead(EntryLines(SortedKeys(entries), entries));
    EntriesRead(SortedKeys(entries), entries, key);
  }

  /** The index without its first line. */
  lemma CutTail(entries: Entries, key: string)
    requires SortedKeys(entries) != [] && forall k | k in entries :: ScanKey(k) && ScanItems(entries[k])
    ensures FirstItems(Readings(TailOf(entries)[2..]), key) == if key == SortedKeys(entries)[0] then []
        else Bucket(entries, key)
  {
    hide ScanKey, ScanItems, SortedKeys, Readings;
    var keys := SortedKeys(entries);
    EntryLinesFront(keys, entries);
    assert TailOf(entries)[2..] == EntryLines(keys[1..], entries);
    EntriesRead(keys[1..], entries, key);
    assert keys == [keys[0]] + keys[1..];
    DistinctFirst(entries);
  }

  lemma BlankRead(lines: seq<string>)
    ensures Readings([""] + lines) == Readings(lines)
  {
    hide SkipBlank, Bracketed, Strip, Items;
    assert ([""] + lines)[1..] == lines;
    if FirstColon([""] + lines).Some? {
      var cut := FirstColon([""] + lines).value;
      assert cut.before == "" + "\n" + FirstColon(lines).value.before;
      assert cut.before[0] == '\n';
    }
  }

  lemma DistinctFirst(entries: Entries)
    requires SortedKeys(entries) != []
    ensures SortedKeys(entries)[0] !in SortedKeys(entries)[1..]
  {
    SortedIsAscending(entries.Keys);
    var keys := SortedKeys(entries);
    forall k | 1 <= k < |keys| ensures keys[k] != keys[0] {}
  }

  /** On a printed well-formed document both readers agree on every key exactly when the header
      is harmless. */
  lemma ReadersAgreeExactly(doc: Doc)
    requires WellFormed(doc)
    ensures (forall key :: LookupText(Print(doc), key) == Bucket(Parse(Print(doc)).entries, Strip(key))) <==>
        HarmlessHeader(doc)
  {
    hide Parse, Print, ReadHeader, SortedKeys, Strip, LookupText, WellFormed, TailOf, HasKey, FirstItems;
    PrintedComesBack(doc);
    forall key ensures LookupText(Print(doc), key) ==
        var front, keys := ReadHeader(doc.header, TailOf(doc.entries)), SortedKeys(doc.entries);
              if HasKey(front.readings, Strip(key)) then FirstItems(front.readings, Strip(key))
              else if front.left != TailOf(doc.entries) && keys != [] && Strip(key) == keys[0] then []
              else Bucket(doc.entries, Strip(key))
    {
      LookupInPrinted(doc, key);
    }
    var tail, keys := TailOf(doc.entries), SortedKeys(doc.entries);
    var front := ReadHeader(doc.header, tail);
    if forall key :: LookupText(Print(doc), key) == Bucket(doc.entries, Strip(key)) {
      forall key | HasKey(front.readings, key) ensures FirstItems(front.readings, key) == Bucket(doc.entries, key) {
        ReadKeysAreStripped(doc.header, tail, key);
        assert LookupText(Print(doc), key) == Bucket(doc.entries, Strip(key));
      }
      if keys != [] {
        FirstKeyIsStripped(doc);
        assert LookupText(Print(doc), keys[0]) == Bucket(doc.entries, Strip(keys[0]));
      }
    }
  }

  lemma FirstKeyIsStripped(doc: Doc)
    requires WellFormed(doc) && SortedKeys(doc.entries) != []
    ensures var k := SortedKeys(doc.entries)[0]; k in doc.entries && Strip(k) == k
  {
    hide MatchAt, Strip;
    var k := SortedKeys(doc.entries)[0];
    assert k in SortedKeys(doc.entries);
    StripKey(k);
  }

  lemma StripTwice(s: string)
    ensures Strip(Strip(s)) == Strip(s)
  {
    TrimIsTrimmed(PySpace, s);
    TrimIsTrimmed(PySpace, Strip(s));
  }

  lemma {:induction false} ReadKeysAreStripped(header: seq<string>, tail: seq<string>, key: string)
    requires HasKey(ReadHeader(header, tail).readings, key)
    ensures Strip(key) == key
    decreases |header|
  {
    hide FirstColon, SkipBlank, Bracketed, Strip, Items;
    var k :| 0 <= k < |ReadHeader(header, tail).readings| && ReadHeader(header, tail).readings[k].key == key;
    if HitAt(header + tail).None? {
      ReadKeysAreStripped(header[1..], tail, key);
    } else {
      var hit := HitAt(header + tail).value;
      StripTwice(FirstColon(header + tail).value.before[1..]);
      if k > 0 {
        var rest := ReadHeader(header[|header| + |tail| - |hit.below|..], tail).readings;
        assert rest[k - 1].key == key;
        ReadKeysAreStripped(header[|header| + |tail| - |hit.below|..], tail, key);
      }
    }
  }

  // ----- Headers that start nothing -----

  lemma NotOpenNoHit(lines: seq<string>)
    requires lines != [] && !Opens(lines[0])
    ensures HitAt(lines).None?
  {
    hide SkipBlank, Bracketed, Strip, Items, PySpace;
    if FirstColon(lines).Some? {
      var cut, line := FirstColon(lines).value, lines[0];
      assert |cut.before| >= 3 && line != "" ==> cut.before[0] == line[0] && (|line| >= 2 ==> cut.before[1] == line[1]);
      assert line == "" ==> cut.before == "" || cut.before[0] == '\n';
    }
  }

  lemma {:induction false} NothingRead(header: seq<string>, tail: seq<string>)
    requires forall h | h in header :: !Opens(h)
    ensures ReadHeader(header, tail) == Front([], tail)
    decreases |header|
  {
    hide Opens, HitAt;
    if header != [] {
      assert header[0] in header;
      NotOpenNoHit(header + tail);
      NothingRead(header[1..], tail);
    }
  }

  /** Without a header line that starts with a dash and white space the readers agree. */
  lemma {:induction false} ReadersAgree(doc: Doc, key: string)
    requires WellFormed(doc) && forall h | h in doc.header :: !Opens(h)
    ensures LookupText(Print(doc), key) == Bucket(doc.entries, Strip(key))
    ensures LookupText(Print(doc), key) == Bucket(Parse(Print(doc)).entries, Strip(key))
    ensures HarmlessHeader(doc)
  {
    hide Parse, Print, Opens, WellFormed, LookupText, Strip, SortedKeys;
    NothingRead(doc.header, TailOf(doc.entries));
    LookupInPrinted(doc, key);
    PrintedComesBack(doc);
  }
}
