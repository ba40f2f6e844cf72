/** Keys on two lines: whether queries stay answered when a readable history follows the update
    that filed a path under such a key. */
module IndexTwoLines {
  import opened Wrappers
  import opened Text
  import opened PythonText
  import opened IndexGrammar
  import opened MarkdownIndex
  import opened IndexReading
  import opened IndexLines
  import opened IndexHistory
  import opened IndexAgreement
  import opened IndexAnswers

  /** The two lines are one normalised key without a colon. */
  ghost predicate TwoLineKey(first: string, second: string) {
    var key := first + "\n" + second;
    Trimmed(PySpace, key) && Lower(key) == key && ':' !in key && OneLine(first) && OneLine(second)
  }

  /** The second line of what is printed for such a key. */
  function ListLine(second: string, path: string): string {
    second + ": [" + path + "]"
  }

  /** An update that files nothing. */
  predicate Idle(f: Filing) {
    NormalKeys(f.keys) == []
  }

  lemma TwoLineFacts(first: string, second: string)
    requires TwoLineKey(first, second)
    ensures Note(first) && second != "" && !PySpace(second[|second| - 1]) && ':' !in second
    ensures var key := first + "\n" + second; key != "" && '\r' !in key && !OneLine(key)
  {
    var key := first + "\n" + second;
    PlainCharacters();
    assert key[|first|] == '\n';
    assert key[|key| - 1] == if second == "" then '\n' else second[|second| - 1];
    assert key[0] == if first == "" then '\n' else first[0];
    assert forall j | 0 <= j < |first| :: first[j] == key[j];
    assert forall j | 0 <= j < |second| :: second[j] == key[|first| + 1 + j];
  }

  lemma ListLineFacts(second: string, path: string)
    requires OneLine(second) && GoodItem(path)
    ensures var line := ListLine(second, path); OneLine(line) && line != "" && Strip(line) != ""
    ensures second != "" ==> (Opens(ListLine(second, path)) <==> Opens(second + ":"))
  {
    hide PySpace, Trimmed;
    PlainCharacters();
    var line := ListLine(second, path);
    assert OneLine(": [") && OneLine("]");
    assert line[|line| - 1] == ']';
    LastStays(line);
    assert second != "" ==> line[0] == (second + ":")[0] && line[1] == (second + ":")[1];
  }

  lemma LastStays(line: string)
    requires line != "" && !PySpace(line[|line| - 1])
    ensures Strip(line) != ""
  {
    hide PySpace;
    var a, b := TrimIsSlice(PySpace, line);
    BlankPart(line, 0, a);
    BlankPart(line, b, |line|);
  }

  lemma BlankPart(s: string, a: nat, b: nat)
    requires a <= b <= |s| && Blank(PySpace, s[a..b])
    ensures SpaceRun(s, a, b)
  {
    hide PySpace;
    var part := s[a..b];
    assert forall j | a <= j < b :: part[j - a] == s[j];
  }

  lemma NotOpenNoMatch(line: string)
    requires line != "" && !Opens(line)
    ensures MatchAt(line, 0).None?
  {
    hide ItemsAt, MatchEnd, PySpace;
    if line[0] == '-' && |line| > 1 { assert SkipSpace(line, 1) == 1; }
  }

  // ----- What the second line is read as -----

  lemma SecondLineStays(second: string, path: string, doc: Doc)
    requires OneLine(second) && GoodItem(path) && !Opens(ListLine(second, path))
    ensures Absorb(doc, ListLine(second, path)) == doc.(header := doc.header + [ListLine(second, path)])
    ensures GoodHeader(ListLine(second, path))
  {
    hide MatchAt, Strip, PySpace, Opens;
    ListLineFacts(second, path);
    NotOpenNoMatch(ListLine(second, path));
  }

  lemma SecondLineIsEntry(first: string, second: string, path: string) returns (key: string)
    requires TwoLineKey(first, second) && GoodItem(path) && Opens(second + ":")
    ensures GoodKey(key)
    ensures forall doc :: Absorb(doc, ListLine(second, path)) == doc.(entries := doc.entries[key := [path]])
  {
    hide MatchAt, Items, Strip;
    TwoLineFacts(first, second);
    var line, c := ListLine(second, path), |second|;
    key := Strip(second[2..]);
    SecondDerives(second, path);
    DerivationIsMatched(line, 0, 2, c, c + 2, |line| - 1, |line|);
    assert line[2..c] == second[2..] && line[c + 3..|line| - 1] == path;
    SecondKeyIsGood(first, second);
    OneItem(path);
    StripKey(key);
  }

  lemma OneItem(path: string)
    requires GoodItem(path)
    ensures Items(path) == [path]
  {
    hide Items;
    GoodAlone(path);
    GoodIsScan("", [path]);
    ItemsComeBack([path]);
    assert Join([path], ", ") == path;
  }

  lemma SecondDerives(second: string, path: string)
    requires OneLine(second) && ':' !in second && GoodItem(path) && second != "" && !PySpace(second[|second| - 1])
    requires Opens(second + ":")
    ensures var line, c := ListLine(second, path), |second|; Derives(line, 0, 2, c, c + 2, |line| - 1, |line|)
  {
    hide PySpace, Trimmed;
    PlainCharacters();
    var line, c := ListLine(second, path), |second|;
    assert (second + ":")[0] == second[0] && |second| >= 2 && (second + ":")[1] == second[1];
    assert line[0] == second[0] && line[1] == second[1] && c >= 3;
    forall j | 2 <= j < c ensures line[j] != ':' { assert line[j] == second[j]; }
    forall j | c + 3 <= j < |line| - 1 ensures line[j] != '\n' { assert line[j] == path[j - c - 3]; }
    assert line[c] == ':' && line[c + 1] == ' ' && line[c + 2] == '[' && line[|line| - 1] == ']';
    assert DerivesKey(line, 0, 2, c);
    assert DerivesItems(line, c + 1, c + 2, |line| - 1, |line|);
  }

  lemma SecondKeyIsGood(first: string, second: string)
    requires TwoLineKey(first, second) && Opens(second + ":")
    ensures GoodKey(Strip(second[2..])) && Lower(Strip(second[2..])) == Strip(second[2..])
  {
    TwoLineFacts(first, second);
    var key, rest := first + "\n" + second, second[2..];
    assert (second + ":")[0] == second[0] && |second| >= 2 && (second + ":")[1] == second[1];
    assert rest != "" && rest[|rest| - 1] == second[|second| - 1];
    LastStays(rest);
    var a, b := TrimIsSlice(PySpace, rest);
    TrimIsTrimmed(PySpace, rest);
    var k := Strip(rest);
    forall j | 0 <= j < |k| ensures LowerChar(k[j]) == k[j] && k[j] != ':' && !IsBreak(k[j]) {
      assert k[j] == second[2 + a + j] && second[2 + a + j] == key[|first| + 1 + (2 + a + j)];
      assert LowerChar(key[|first| + 1 + (2 + a + j)]) == Lower(key)[|first| + 1 + (2 + a + j)];
    }
  }

  // ----- The histories that follow -----

  /** The bucket of a key after these updates of a bucket. */
  function FiledOn(bucket: seq<string>, filings: seq<Filing>, key: string): seq<string> {
    if filings == [] then bucket
    else
      var before, last := FiledOn(bucket, filings[..|filings| - 1], key), filings[|filings| - 1];
      if key in NormalKeys(last.keys) then AddValue(before, last.path) else before
  }

  lemma {:induction false} FiledAfter(f: Filing, rest: seq<Filing>, key: string)
    ensures Filed([f] + rest, key) == FiledOn(Filed([f], key), rest, key)
    ensures Filed(rest, key) == FiledOn([], rest, key)
    ensures (forall g | g in rest :: key !in NormalKeys(g.keys)) ==>
        FiledOn(Filed([f], key), rest, key) == Filed([f], key)
    decreases |rest|
  {
    hide NormalKeys;
    if rest == [] {
      assert [f] + rest == [f];
    } else {
      assert ([f] + rest)[..|rest|] == [f] + rest[..|rest| - 1];
      FiledAfter(f, rest[..|rest| - 1], key);
      assert rest[|rest| - 1] in rest;
    }
  }

  /** The text after an update and a readable history that followed it. */
  ghost predicate Continues(content: string, was: string, rest: seq<Filing>) {
    var doc, start := Parse(content), Parse(was);
    && doc.header == start.header && WellFormed(doc)
    && (forall k :: Bucket(doc.entries, k) == FiledOn(Bucket(start.entries, k), rest, k))
    && (forall k | k in start.entries :: k in doc.entries)
    && (if forall f | f in rest :: Idle(f) then content == was else content == Print(doc))
  }

  lemma ContinueOnce(content: string, was: string, fileName: string, rest: seq<Filing>, last: Filing)
    requires Continues(content, was, rest) && Readable(last) && Parse(was).header != []
    ensures Continues(AppendText(content, last, fileName), was, rest + [last])
  {
    hide NormalKeys, Parse, Print, GoodItem, OneLine, AddAll, MatchAt;
    var doc, keys, all := Parse(content), NormalKeys(last.keys), rest + [last];
    assert all[..|rest|] == rest && last in all && forall f | f in rest :: f in all;
    if keys == [] {
      assert forall f | f in all :: f in rest || f == last;
    } else {
      var next := Doc(doc.header, AddAll(doc.entries, keys, last.path));
      AppendIsMerge(content, last, fileName);
      NormalKeysAreNormal(last.keys);
      AddAllKeepsWellFormed(doc, keys, last.path);
      PrintedComesBack(next);
      forall k ensures Bucket(next.entries, k) == FiledOn(Bucket(Parse(was).entries, k), all, k)
        && (k in doc.entries ==> k in next.entries) {
        AddAllMeaning(doc.entries, keys, last.path, k);
      }
    }
  }

  lemma {:induction false} RestContinues(fileName: string, f: Filing, rest: seq<Filing>)
    requires var start := Parse(Run(fileName, [f])); WellFormed(start) && start.header != []
    requires forall g | g in rest :: Readable(g)
    ensures Continues(Run(fileName, [f] + rest), Run(fileName, [f]), rest)
    decreases |rest|
  {
    hide Parse, Readable, AppendText, WellFormed, Print;
    if rest == [] {
      assert [f] + rest == [f];
    } else {
      var front, last := rest[..|rest| - 1], rest[|rest| - 1];
      assert rest == front + [last] && last in rest && ([f] + rest)[..|rest|] == [f] + front;
      RestContinues(fileName, f, front);
      assert Run(fileName, [f] + rest) == AppendText(Run(fileName, [f] + front), last, fileName);
      ContinueOnce(Run(fileName, [f] + front), Run(fileName, [f]), fileName, front, last);
    }
  }

  // ----- Queries after the second line stayed a line -----

  /** The entry that both lines make together. */
  lemma TwoLineHit(first: string, second: string, path: string, below: seq<string>)
    requires TwoLineKey(first, second) && GoodItem(path)
    ensures HitAt(["- " + first] + ([ListLine(second, path)] + below)) ==
        Some(Hit(Reading(first + "\n" + second, [path]), below))
  {
    hide Strip, PySpace, SkipBlank, Bracketed, Inner, Items, FirstColon, Trimmed, Lower;
    PlainCharacters();
    TwoLineFacts(first, second);
    GoodAlone(path);
    GoodIsScan("", [path]);
    var line, after := ListLine(second, path), " [" + path + "]";
    assert Join([path], ", ") == path;
    ListRead([path]);
    SkipNothing(after, below);
    assert ([after] + below)[1..] == below;
    ColonOfLine(second, after, below);
    assert line == second + ":" + after;
    NoColonHere("- " + first, [line] + below);
    var before := "- " + first + "\n" + second;
    assert before[1..] == " " + (first + "\n" + second);
    KeyRead(first + "\n" + second);
  }

  lemma TwoLineFront(fileName: string, first: string, second: string, path: string, tail: seq<string>)
    requires OneLine(fileName) && TwoLineKey(first, second) && GoodItem(path)
    ensures ReadHeader([Title(fileName), "- " + first, ListLine(second, path)], tail)
      == Front([Reading(first + "\n" + second, [path])], tail)
  {
    hide HitAt, TwoLineKey, GoodItem, OneLine, Title;
    TitleIsNoMatch(fileName);
    var dash, line := "- " + first, ListLine(second, path);
    var header := [Title(fileName), dash, line];
    NotOpenNoHit(header + tail);
    assert header[1..] == [dash, line];
    assert [dash, line] + tail == [dash] + ([line] + tail);
    TwoLineHit(first, second, path, tail);
  }

  /** A query then finds the path under the whole key and everything else where it was filed. */
  lemma StayedLineIsAnswered(fileName: string, first: string, second: string, path: string, doc: Doc, key: string)
    requires OneLine(fileName) && TwoLineKey(first, second) && GoodItem(path) && WellFormed(doc)
    requires doc.header == [Title(fileName), "- " + first, ListLine(second, path)]
    ensures LookupText(Print(doc), key) == if Strip(key) == first + "\n" + second then [path]
        else Bucket(doc.entries, Strip(key))
  {
    hide Strip, LookupText, Print, HitAt, ReadHeader, TwoLineKey, WellFormed;
    LookupInPrinted(doc, key);
    TwoLineFront(fileName, first, second, path, TailOf(doc.entries));
    var r := Reading(first + "\n" + second, [path]);
    assert [r][0] == r;
  }

  // ----- Queries after the second line became an entry -----

  lemma EntryFront(fileName: string, first: string, entries: Entries)
    requires OneLine(fileName) && Note(first) && entries != map[]
    requires forall k | k in entries :: GoodKey(k) && GoodItems(entries[k])
    ensures var keys, front := SortedKeys(entries), ReadHeader([Title(fileName), "- " + first], TailOf(entries));
            keys != [] && front.readings == [Reading(first + "\n" + "\n" + "- " + keys[0], entries[keys[0]])]
  {
    hide HitAt, Title, OneLine, SortedKeys, GoodItems, EntryLine, Trimmed, Lower;
    TitleIsNoMatch(fileName);
    var keys, tail, dash := SortedKeys(entries), TailOf(entries), "- " + first;
    var k :| k in entries;
    assert k in keys && keys[0] in keys;
    NotOpenNoHit([Title(fileName), dash] + tail);
    assert [Title(fileName), dash][1..] == [dash];
    EntryLinesFront(keys, entries);
    var below := EntryLines(keys[1..], entries);
    DashLineSwallows(first, [""], keys[0], entries[keys[0]], below);
    assert [dash] + tail == [dash] + ([""] + ([EntryLine(keys[0], entries[keys[0]])] + below));
    assert [""][1..] == [];
    assert Unlines([""]) == "" + "\n" + "" == "\n";
    assert |below| <= |tail|;
  }

  /** The key on two lines is then found no more. */
  lemma EntryLineIsLost(fileName: string, first: string, second: string, doc: Doc)
    requires OneLine(fileName) && TwoLineKey(first, second) && WellFormed(doc) && doc.entries != map[]
    requires doc.header == [Title(fileName), "- " + first]
    ensures LookupText(Print(doc), first + "\n" + second) == []
  {
    hide Strip, LookupText, Print, HitAt, ReadHeader, SortedKeys, MatchAt, Trimmed, Lower, Title;
    var key := first + "\n" + second;
    TwoLineFacts(first, second);
    LookupInPrinted(doc, key);
    StripKey(key);
    EntryFront(fileName, first, doc.entries);
    var keys := SortedKeys(doc.entries);
    var taken := first + "\n" + "\n" + "- " + keys[0];
    assert taken != key by {
      assert taken[|first| + 1] == '\n' && key[|first| + 1] == second[0];
      assert IsBreak('\n');
    }
    assert key !in doc.entries;
  }

  // ----- Whole histories -----

  /** What the line reader makes of the two lines behind the title. */
  ghost predicate ReadAs(doc: Doc, fileName: string, first: string, second: string, path: string) {
    && WellFormed(doc)
    && (Opens(second + ":") ==> doc.header == [Title(fileName), "- " + first] && doc.entries != map[])
    && (!Opens(second + ":") ==> doc == Doc([Title(fileName), "- " + first, ListLine(second, path)], map[]))
  }

  lemma DashThenEntry(fileName: string, first: string, second: string, path: string)
    requires OneLine(fileName) && TwoLineKey(first, second) && GoodItem(path) && Opens(second + ":")
    ensures ReadAs(Absorb(Doc([Title(fileName), "- " + first], map[]), ListLine(second, path)), fileName, first,
        second, path)
  {
    hide Absorb, Title, Opens, MatchAt, Strip, GoodItem, GoodKey, OneLine, PySpace, TwoLineKey;
    TitleIsNoMatch(fileName);
    TwoLineFacts(first, second);
    DashLineIsNoMatch(first);
    var key := SecondLineIsEntry(first, second, path);
    GoodAlone(path);
    assert key in map[key := [path]];
  }

  lemma DashThenLine(fileName: string, first: string, second: string, path: string)
    requires OneLine(fileName) && TwoLineKey(first, second) && GoodItem(path) && !Opens(second + ":")
    ensures ReadAs(Absorb(Doc([Title(fileName), "- " + first], map[]), ListLine(second, path)), fileName, first,
        second, path)
  {
    hide Absorb, Title, Opens, MatchAt, Strip, GoodItem, GoodKey, PySpace, Trimmed, Lower;
    TitleIsNoMatch(fileName);
    TwoLineFacts(first, second);
    ListLineFacts(second, path);
    DashLineIsNoMatch(first);
    var line, doc := ListLine(second, path), Doc([Title(fileName), "- " + first], map[]);
    SecondLineStays(second, path, doc);
    assert doc.header + [line] == [Title(fileName), "- " + first, line];
  }

  /** The file after the one update under the key. */
  lemma AfterTwoLines(fileName: string, first: string, second: string, path: string)
    requires OneLine(fileName) && TwoLineKey(first, second) && GoodItem(path)
    ensures ReadAs(Parse(Run(fileName, [Filing([first + "\n" + second], path)])), fileName, first, second, path)
  {
    hide Parse, Run, Absorb, Title, Opens, MatchAt, Strip, Trimmed, Lower, ReadAs, GoodItem, Unlines;
    TwoLineFacts(first, second);
    ListLineFacts(second, path);
    BrokenKeyText(fileName, first, second, path);
    DashLineIsNoMatch(first);
    FourLines(fileName, "- " + first, ListLine(second, path));
    DashLineAbsorbs(Doc([Title(fileName)], map[]), first);
    assert [Title(fileName)] + ["- " + first] == [Title(fileName), "- " + first];
    if Opens(second + ":") {
      DashThenEntry(fileName, first, second, path);
    } else {
      DashThenLine(fileName, first, second, path);
    }
  }

  /** What the history filed under each key, the one on two lines and all others. */
  lemma FiledBesides(first: string, second: string, path: string, rest: seq<Filing>, key: string)
    requires TwoLineKey(first, second) && forall f | f in rest :: Readable(f)
    ensures var broken := first + "\n" + second;
            Filed([Filing([broken], path)] + rest, key) == if key == broken then [path] else FiledOn([], rest, key)
  {
    hide NormalKeys, FiledOn, Trimmed, Lower, GoodItem;
    var broken, f := first + "\n" + second, Filing([first + "\n" + second], path);
    TwoLineFacts(first, second);
    OneNormalKey(broken);
    FiledAfter(f, rest, key);
    assert Filed([f], key) == if key == broken then [path] else [] by { FiledOnce(broken, path, key); }
    if key == broken {
      forall g | g in rest ensures broken !in NormalKeys(g.keys) { assert Readable(g); }
    }
  }

  lemma FiledOnce(filed: string, path: string, key: string)
    requires NormalKeys([filed]) == [filed]
    ensures Filed([Filing([filed], path)], key) == if key == filed then [path] else []
  {
    assert [Filing([filed], path)][..0] == [];
    assert [] + [path] == [path];
  }

  /** One update under a key on two lines and then a readable history: every query is answered
      exactly when the second line does not open an entry, or nothing was filed since. */
  lemma TwoLinesAnswered(fileName: string, first: string, second: string, path: string, rest: seq<Filing>)
    requires OneLine(fileName) && TwoLineKey(first, second) && GoodItem(path)
    requires forall f | f in rest :: Readable(f)
    ensures Answered(fileName, [Filing([first + "\n" + second], path)] + rest)
      <==> !Opens(second + ":") || forall f | f in rest :: Idle(f)
  {
    hide Parse, Run, Title, Opens, Strip, LookupText, Readable;
    hide Filed, FiledOn, WellFormed, Print, TwoLineKey, GoodItem, Idle;
    var broken, f := first + "\n" + second, Filing([first + "\n" + second], path);
    var all, was := [f] + rest, Run(fileName, [f]);
    AfterTwoLines(fileName, first, second, path);
    RestContinues(fileName, f, rest);
    var doc := Parse(Run(fileName, all));
    forall key ensures Filed(all, key) == if key == broken then [path] else FiledOn([], rest, key) {
      FiledBesides(first, second, path, rest, key);
    }
    if forall g | g in rest :: Idle(g) {
      forall key ensures LookupText(Run(fileName, all), key) == Filed(all, Strip(key)) {
        IdleIsAnswered(fileName, first, second, path, rest, key);
      }
    } else if !Opens(second + ":") {
      forall key ensures LookupText(Run(fileName, all), key) == Filed(all, Strip(key)) {
        StayedLineIsAnswered(fileName, first, second, path, doc, key);
        assert Bucket(Parse(was).entries, Strip(key)) == [];
      }
    } else {
      EntryLineIsLost(fileName, first, second, doc);
      BrokenIsItsOwn(first, second);
      assert LookupText(Run(fileName, all), broken) != Filed(all, Strip(broken));
    }
  }

  lemma BrokenIsItsOwn(first: string, second: string)
    requires TwoLineKey(first, second)
    ensures Strip(first + "\n" + second) == first + "\n" + second
  {
    StripKey(first + "\n" + second);
  }

  lemma IdleIsAnswered(fileName: string, first: string, second: string, path: string, rest: seq<Filing>, key: string)
    requires OneLine(fileName) && TwoLineKey(first, second) && GoodItem(path)
    requires forall f | f in rest :: Idle(f) && Readable(f)
    requires Run(fileName, [Filing([first + "\n" + second], path)] + rest) ==
        Run(fileName, [Filing([first + "\n" + second], path)])
    ensures var all := [Filing([first + "\n" + second], path)] + rest;
            LookupText(Run(fileName, all), key) == Filed(all, Strip(key))
  {
    hide Run, Strip, LookupText, Trimmed, Lower, GoodItem, NormalKeys, FiledOn;
    var broken := first + "\n" + second;
    TwoLineFacts(first, second);
    var all := [Filing([broken], path)] + rest;
    StripTwice(key);
    OneIsAnswered(fileName, broken, path, key);
    FiledBesides(first, second, path, rest, Strip(key));
    NothingFiledOn(rest, Strip(key));
  }

  lemma {:induction false} NothingFiledOn(rest: seq<Filing>, key: string)
    requires forall f | f in rest :: Idle(f)
    ensures FiledOn([], rest, key) == []
    decreases |rest|
  {
    if rest != [] {
      assert rest[|rest| - 1] in rest;
      NothingFiledOn(rest[..|rest| - 1], key);
    }
  }

  /** A history with an unreadable update before its last one may be answered all the same. */
  lemma BrokenKeySurvives(fileName: string, a: string, b: string, p: string, c: string, q: string)
    requires OneLine(fileName) && GoodKey(a) && GoodKey(b) && b[0] != '-' && GoodKey(c) && GoodItem(p) && GoodItem(q)
    ensures var filings := [Filing([a + "\n" + ("" + b)], p), Filing([c], q)];
            Answered(fileName, filings) && !Readable(filings[0])
  {
    hide Answered, PySpace, GoodItem;
    assert "" + b == b;
    BrokenIsNormal(a, "", b);
    OneNormalKey(a + "\n" + b);
    OneNormalKey(c);
    assert a + "\n" + b in [a + "\n" + b];
    TwoLinesAnswered(fileName, a, b, p, [Filing([c], q)]);
    assert [Filing([a + "\n" + b], p)] + [Filing([c], q)] == [Filing([a + "\n" + b], p), Filing([c], q)];
  }
}
