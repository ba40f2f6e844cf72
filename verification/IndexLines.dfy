/** What the whole-text scan reads, told line by line: an entry starts at a line with a dash, its
    key runs on to the first colon, its items are in brackets on that line or, after blank lines
    only, on a later one. */
module IndexLines {
  import opened Wrappers
  import opened Text
  import opened PythonText
  import opened IndexGrammar
  import opened MarkdownIndex

  // ----- Reading lines -----

  datatype Reading = Reading(key: string, items: seq<string>)

  /** An entry that starts at the first of some lines, and the lines below it. */
  datatype Hit = Hit(reading: Reading, below: seq<string>)

  /** The text up to the first colon, the rest of its line, and the lines below. */
  datatype Cut = Cut(before: string, after: string, below: seq<string>)

  function FirstColon(lines: seq<string>): (r: Option<Cut>)
    ensures r.Some? ==> |r.value.below| < |lines|
  {
    if lines == [] then None
    else
      var c := Find(lines[0], 0, ':');
      if c < |lines[0]| then Some(Cut(lines[0][..c], lines[0][c + 1..], lines[1..]))
      else match FirstColon(lines[1..])
        case None => None
        case Some(cut) => Some(cut.(before := lines[0] + "\n" + cut.before))
  }

  function SkipBlank(lines: seq<string>): (r: seq<string>)
    ensures |r| <= |lines|
  {
    if lines != [] && Strip(lines[0]) == "" then SkipBlank(lines[1..]) else lines
  }

  predicate Bracketed(line: string) {
    var u := Strip(line);
    |u| >= 2 && u[0] == '[' && u[|u| - 1] == ']'
  }

  function Inner(line: string): string
    requires Bracketed(line)
  {
    Strip(line)[1..|Strip(line)| - 1]
  }

  /** The entry that starts at the first line, if one does. */
  function HitAt(lines: seq<string>): (r: Option<Hit>)
    ensures r.Some? ==> |r.value.below| < |lines|
  {
    match FirstColon(lines)
    case None => None
    case Some(cut) =>
      if |cut.before| < 3 || cut.before[0] != '-' || !PySpace(cut.before[1]) then None
      else
        var rest := SkipBlank([cut.after] + cut.below);
        if rest == [] || !Bracketed(rest[0]) then None
        else Some(Hit(Reading(Strip(cut.before[1..]), Items(Inner(rest[0]))), rest[1..]))
  }

  /** The entries of some lines, one after the other. */
  function Readings(lines: seq<string>): seq<Reading>
    decreases |lines|
  {
    if lines == [] then []
    else match HitAt(lines)
      case Some(hit) => [hit.reading] + Readings(hit.below)
      case None => Readings(lines[1..])
  }

  predicate HasKey(readings: seq<Reading>, key: string) {
    exists k | 0 <= k < |readings| :: readings[k].key == key
  }

  /** The items of the first entry with this key. */
  function FirstItems(readings: seq<Reading>, key: string): seq<string> {
    if readings == [] then []
    else if readings[0].key == key then readings[0].items
    else FirstItems(readings[1..], key)
  }

  lemma {:induction false} FirstOfBoth(a: seq<Reading>, b: seq<Reading>, key: string)
    ensures FirstItems(a + b, key) == if HasKey(a, key) then FirstItems(a, key) else FirstItems(b, key)
    decreases |a|
  {
    if a == [] {
      assert a + b == b;
    } else {
      assert (a + b)[1..] == a[1..] + b;
      FirstOfBoth(a[1..], b, key);
      assert forall k | 1 <= k < |a| :: a[k] == a[1..][k - 1];
      assert forall k | 0 <= k < |a| - 1 :: a[1..][k] == a[k + 1];
    }
  }

  // ----- The lines as text -----

  /** Lines as the scan sees them: other line breaks may occur in them. */
  ghost predicate NoNewlines(lines: seq<string>) {
    forall l | l in lines :: '\n' !in l
  }

  /** What cutting some lines at their first colon means in their text. */
  ghost predicate CutOk(lines: seq<string>, r: Option<Cut>) {
    match r
    case None => ':' !in Unlines(lines)
    case Some(cut) =>
      && Unlines(lines) == cut.before + ":" + Unlines([cut.after] + cut.below)
      && ':' !in cut.before && '\n' !in cut.after && NoNewlines(cut.below)
  }

  lemma ColonHere(line: string, below: seq<string>, c: nat)
    requires '\n' !in line && NoNewlines(below) && c < |line| && line[c] == ':' && Without(line, 0, c, ':')
    ensures CutOk([line] + below, Some(Cut(line[..c], line[c + 1..], below)))
  {
    hide NoNewlines;
    var after := line[c + 1..];
    assert line == line[..c] + ":" + after;
    assert ([after] + below)[1..] == below && ([line] + below)[1..] == below;
    assert line[..c] + ":" + after + "\n" + Unlines(below) == line[..c] + ":" + (after + "\n" + Unlines(below));
  }

  lemma ColonBelow(line: string, below: seq<string>, r: Option<Cut>)
    requires ':' !in line && CutOk(below, r)
    ensures r.None? ==> CutOk([line] + below, None)
    ensures r.Some? ==> CutOk([line] + below, Some(r.value.(before := line + "\n" + r.value.before)))
  {
    hide NoNewlines;
    assert ([line] + below)[1..] == below;
    if r.Some? {
      var text := Unlines([r.value.after] + r.value.below);
      assert line + "\n" + (r.value.before + ":" + text) == (line + "\n" + r.value.before) + ":" + text;
    }
  }

  lemma {:induction false} CutIs(lines: seq<string>)
    requires NoNewlines(lines)
    ensures CutOk(lines, FirstColon(lines))
    decreases |lines|
  {
    hide CutOk, Unlines;
    if lines == [] {
      NothingToCut();
    } else {
      var line, below := lines[0], lines[1..];
      assert line in lines && lines == [line] + below;
      FewerLines(lines);
      FindStops(line, 0, ':');
      var c := Find(line, 0, ':');
      if c < |line| { ColonHere(line, below, c); } else { CutIs(below); ColonBelow(line, below, FirstColon(below)); }
    }
  }

  lemma NothingToCut()
    ensures CutOk([], None)
  {
  }

  lemma StripLeavesNothing(line: string)
    requires Strip(line) == ""
    ensures Blank(PySpace, line)
  {
    hide PySpace;
    var a, b := TrimIsSlice(PySpace, line);
    assert line == line[..a] + line[b..];
  }

  lemma {:induction false} SkipBlankIs(lines: seq<string>) returns (blank: string)
    requires NoNewlines(lines)
    ensures Unlines(lines) == blank + Unlines(SkipBlank(lines)) && Blank(PySpace, blank)
    ensures NoNewlines(SkipBlank(lines)) && (SkipBlank(lines) != [] ==> Strip(SkipBlank(lines)[0]) != "")
    decreases |lines|
  {
    hide PySpace, Strip, NoNewlines;
    blank := "";
    if lines != [] && Strip(lines[0]) == "" {
      FewerLines(lines);
      var more := SkipBlankIs(lines[1..]);
      StripLeavesNothing(lines[0]);
      PlainCharacters();
      blank := lines[0] + "\n" + more;
    }
  }

  /** A line that is not blank: white space, what stripping leaves, white space. */
  lemma StripSplits(line: string) returns (a: nat, b: nat)
    requires Strip(line) != ""
    ensures a < b <= |line| && Strip(line) == line[a..b] && SpaceRun(line, 0, a) && SpaceRun(line, b, |line|)
    ensures !PySpace(line[a]) && !PySpace(line[b - 1])
  {
    hide PySpace;
    a, b := TrimIsSlice(PySpace, line);
    TrimIsTrimmed(PySpace, line);
    assert forall j | 0 <= j < a :: line[..a][j] == line[j];
    assert forall j | b <= j < |line| :: line[b..][j - b] == line[j];
  }

  // ----- The scan reads these entries -----

  /** The scan passes over text without a dash at a line start. */
  lemma {:induction false} ScanSkips(t: string, i: nat, j: nat, key: string)
    requires i <= j <= |t|
    requires forall n: nat | i <= n < j :: t[n] == '-' ==> !LineStart(t, n)
    ensures Scan(t, i, key) == Scan(t, j, key)
    decreases j - i
  {
    hide MatchAt, Strip, Items;
    if i < j {
      if LineStart(t, i) { NoDashNoMatch(t, i); }
      ScanSkips(t, i + 1, j, key);
    }
  }

  /** `t` reads `text` from `i` to its end. */
  ghost predicate Tail(t: string, i: nat, text: string) {
    i <= |t| && t[i..] == text
  }

  lemma TailFits(t: string, i: nat, text: string)
    requires Tail(t, i, text)
    ensures i <= |t|
  {
  }

  lemma TailParts(t: string, i: nat, a: string, b: string)
    requires Tail(t, i, a + b)
    ensures i + |a| <= |t| && Tail(t, i + |a|, b) && t[i..i + |a|] == a
    ensures forall j | 0 <= j < |a| :: t[i + j] == a[j]
  {
    assert t[i..][..|a|] == a && t[i..][|a|..] == b;
    forall j | 0 <= j < |a| ensures t[i + j] == a[j] { assert t[i..][j] == a[j]; }
  }

  /** What a hit at the first line means in the text: where its colon, its brackets and the end
      of its last line are. */
  ghost predicate HitShape(t: string, i: nat, cut: Cut, below: seq<string>, line: string, c: nat, p: nat, e: nat,
                           end: nat) {
    && c == i + |cut.before| && p > c && e > p && end > e && end < |t|
    && DerivesKey(t, i, i + 2, c) && DerivesItems(t, c + 1, p, e, end)
    && t[i + 1..c] == cut.before[1..] && Bracketed(line) && t[p + 1..e] == Inner(line)
    && t[end] == '\n' && Tail(t, end + 1, Unlines(below))
  }

  lemma KeyShape(t: string, i: nat, before: string, rest: string)
    requires Tail(t, i, before + ":" + rest) && ':' !in before
    requires |before| >= 3 && before[0] == '-' && PySpace(before[1])
    ensures var c := i + |before|;
            c < |t| && DerivesKey(t, i, i + 2, c) && t[i + 1..c] == before[1..] && Tail(t, c + 1, rest)
  {
    hide PySpace;
    assert before + ":" + rest == before + (":" + rest);
    TailParts(t, i, before, ":" + rest);
    TailParts(t, i + |before|, ":", rest);
    forall j | i + 2 <= j < i + |before| ensures t[j] != ':' { assert t[j] == before[j - i]; }
  }

  lemma ItemsShape(t: string, i: nat, blank: string, line: string, rest: string) returns (p: nat, e: nat)
    requires Tail(t, i, blank + (line + "\n" + rest)) && Blank(PySpace, blank) && Bracketed(line) && '\n' !in line
    ensures var end := i + |blank| + |line|;
            && end < |t| && t[end] == '\n' && Tail(t, end + 1, rest)
            && DerivesItems(t, i, p, e, end) && t[p + 1..e] == Inner(line)
  {
    hide PySpace, Strip;
    var q := i + |blank|;
    TailParts(t, i, blank, line + "\n" + rest);
    assert line + "\n" + rest == line + ("\n" + rest);
    TailParts(t, q, line, "\n" + rest);
    TailParts(t, q + |line|, "\n", rest);
    var a, b := StripSplits(line);
    p, e := q + a, q + b - 1;
    BracketsAt(t, q, line, a, b);
    forall j | i <= j < p ensures PySpace(t[j]) {
      if j < q { assert t[j] == blank[j - i]; } else { assert t[j] == line[j - q]; }
    }
  }

  lemma InnerIs(line: string, a: nat, b: nat)
    requires Bracketed(line) && a < b <= |line| && Strip(line) == line[a..b]
    ensures b - a >= 2 && Inner(line) == line[a + 1..b - 1]
  {
    var u := line[a..b];
    assert Strip(line) == u && |u| == b - a >= 2;
    SliceOfSlice(line, a, b);
    assert Inner(line) == u[1..|u| - 1];
  }

  lemma SliceOfSlice(s: string, a: nat, b: nat)
    requires a + 2 <= b <= |s|
    ensures s[a..b][1..b - a - 1] == s[a + 1..b - 1]
  {
    var inner, outer := s[a..b][1..b - a - 1], s[a + 1..b - 1];
    assert |inner| == |outer| && forall j | 0 <= j < |inner| :: inner[j] == outer[j];
  }

  /** The brackets of a bracketed line, wherever the line stands. */
  lemma BracketsAt(t: string, q: nat, line: string, a: nat, b: nat)
    requires q + |line| <= |t| && forall j | 0 <= j < |line| :: t[q + j] == line[j]
    requires Bracketed(line) && '\n' !in line
    requires a < b <= |line| && Strip(line) == line[a..b] && SpaceRun(line, b, |line|)
    ensures b - a >= 2 && t[q + a] == '[' && t[q + b - 1] == ']' && t[q + a + 1..q + b - 1] == Inner(line)
    ensures Without(t, q + a + 1, q + b - 1, '\n') && SpaceRun(t, q + b, q + |line|)
  {
    hide PySpace, Strip;
    forall j | q + a + 1 <= j < q + b - 1 ensures t[j] != '\n' { assert t[j] == line[j - q]; }
    forall j | q + b <= j < q + |line| ensures PySpace(t[j]) { assert t[j] == line[j - q]; }
    InnerIs(line, a, b);
    assert t[q + a + 1..q + b - 1] == line[a + 1..b - 1];
  }

  lemma HitHasShape(t: string, i: nat, lines: seq<string>) returns (c: nat, p: nat, e: nat, end: nat)
    requires NoNewlines(lines) && Tail(t, i, Unlines(lines)) && HitAt(lines).Some?
    ensures var cut := FirstColon(lines).value;
            HitShape(t, i, cut, HitAt(lines).value.below, SkipBlank([cut.after] + cut.below)[0], c, p, e, end)
  {
    hide PySpace, Strip, FirstColon, SkipBlank, Find, DerivesKey, DerivesItems, Bracketed, Inner;
    var cut := FirstColon(lines).value;
    CutIs(lines);
    var parts := [cut.after] + cut.below;
    assert NoNewlines(parts);
    var blank := SkipBlankIs(parts);
    var rest := SkipBlank(parts);
    KeyShape(t, i, cut.before, Unlines(parts));
    c := i + |cut.before|;
    assert rest[0] in rest;
    p, e := ItemsShape(t, c + 1, blank, rest[0], Unlines(rest[1..]));
    end := c + 1 + |blank| + |rest[0]|;
    ItemsOrder(t, c + 1, p, e, end);
  }

  lemma ItemsOrder(t: string, i: nat, p: nat, e: nat, s: nat)
    requires DerivesItems(t, i, p, e, s)
    ensures i <= p < e < s
  {
  }

  /** The colon of a match is the first one in the text. */
  lemma MatchedColon(t: string, i: nat, lines: seq<string>, k: nat, c: nat)
    requires NoNewlines(lines) && Tail(t, i, Unlines(lines)) && DerivesKey(t, i, k, c)
    ensures FirstColon(lines).Some?
    ensures var cut := FirstColon(lines).value;
            && c == i + |cut.before| && |cut.before| >= 3 && cut.before[0] == '-' && PySpace(cut.before[1])
            && Tail(t, c + 1, Unlines([cut.after] + cut.below))
  {
    hide PySpace, FirstColon, Unlines;
    CutIs(lines);
    PlainCharacters();
    assert t[i..][c - i] == ':';
    var cut := FirstColon(lines).value;
    var rest := Unlines([cut.after] + cut.below);
    assert cut.before + ":" + rest == cut.before + (":" + rest);
    TailParts(t, i, cut.before, ":" + rest);
    TailParts(t, i + |cut.before|, ":", rest);
    assert forall j | i <= j < i + |cut.before| :: t[j] == cut.before[j - i];
    OneFirstColon(t, i, k, c, i + |cut.before|);
  }

  lemma OneFirstColon(t: string, i: nat, k: nat, c: nat, x: nat)
    requires DerivesKey(t, i, k, c) && i <= x < |t| && t[x] == ':' && forall j | i <= j < x :: t[j] != ':'
    ensures c == x
  {
    hide PySpace;
    PlainCharacters();
  }

  lemma MatchedBrackets(t: string, i: nat, lines: seq<string>, p: nat, e: nat, s: nat)
    requires NoNewlines(lines) && Tail(t, i, Unlines(lines)) && DerivesItems(t, i, p, e, s)
    ensures SkipBlank(lines) != [] && Bracketed(SkipBlank(lines)[0])
  {
    hide PySpace, Strip, SkipBlank;
    PlainCharacters();
    var blank := SkipBlankIs(lines);
    var rest := SkipBlank(lines);
    TailParts(t, i, blank, Unlines(rest));
    assert forall j | i <= j < i + |blank| :: t[j] == blank[j - i];
    var q := i + |blank|;
    assert p >= q;
    assert rest != [];
    var line := rest[0];
    assert line in rest;
    assert Unlines(rest) == line + ("\n" + Unlines(rest[1..]));
    TailParts(t, q, line, "\n" + Unlines(rest[1..]));
    TailParts(t, q + |line|, "\n", Unlines(rest[1..]));
    forall j | q <= j < q + |line| ensures t[j] == line[j - q] { assert t[q + (j - q)] == line[j - q]; }
    BracketsFound(t, i, q, line, p, e, s);
  }

  lemma BracketsFound(t: string, i: nat, q: nat, line: string, p: nat, e: nat, s: nat)
    requires i <= q && q + |line| < |t| && forall j | q <= j < q + |line| :: t[j] == line[j - q]
    requires t[q + |line|] == '\n' && '\n' !in line && Strip(line) != ""
    requires DerivesItems(t, i, p, e, s) && q <= p
    ensures Bracketed(line)
  {
    hide PySpace, Strip;
    PlainCharacters();
    var a, b := StripSplits(line);
    assert t[q + a] == line[a] && t[q + b - 1] == line[b - 1];
    assert p == q + a;
    var end := q + |line|;
    assert e < end && s >= end;
    assert e == q + b - 1;
  }

  /** A match at a line start is the entry that the lines from there on begin with, and leaves
      the scan at the lines below it, white space aside. */
  lemma MatchIsHit(t: string, i: nat, lines: seq<string>)
    requires NoNewlines(lines) && Tail(t, i, Unlines(lines))
    ensures MatchAt(t, i).Some? <==> HitAt(lines).Some?
    ensures HitAt(lines).Some? ==>
      var m, hit := MatchAt(t, i).value, HitAt(lines).value;
      && Strip(m.key) == hit.reading.key && Items(m.items) == hit.reading.items
      && exists end :: i <= end <= m.end && end < |t| && t[end] == '\n' && Tail(t, end + 1, Unlines(hit.below))
          && SpaceRun(t, end, m.end)
  {
    hide PySpace, Strip, Items, FirstColon, SkipBlank, MatchAt;
    hide MatchEnd, DerivesKey, DerivesItems, Bracketed, Inner, Unlines;
    if HitAt(lines).Some? {
      var c, p, e, end := HitHasShape(t, i, lines);
      DerivationIsMatched(t, i, i + 2, c, p, e, end);
      HitEnds(t, i, c, p, e, end);
      KeyStripped(t, i, c);
    } else if MatchAt(t, i).Some? {
      var k, c, p, e := MatchAtIsDerivation(t, i);
      MatchedColon(t, i, lines, k, c);
      var cut := FirstColon(lines).value;
      CutIs(lines);
      assert NoNewlines([cut.after] + cut.below);
      MatchedBrackets(t, c + 1, [cut.after] + cut.below, p, e, MatchAt(t, i).value.end);
    }
  }

  lemma KeyStripped(t: string, i: nat, c: nat)
    requires DerivesKey(t, i, i + 2, c)
    ensures Strip(t[i + 2..c]) == Strip(t[i + 1..c])
  {
    hide PySpace, Strip;
    StripSuffix(t, i + 1, i + 2, c);
  }

  lemma HitEnds(t: string, i: nat, c: nat, p: nat, e: nat, end: nat)
    requires DerivesItems(t, c + 1, p, e, end) && i <= c
    ensures e < end && SpaceRun(t, e + 1, end) && end <= MatchEnd(t, e + 1) && SpaceRun(t, end, MatchEnd(t, e + 1))
  {
    hide PySpace, MatchEnd;
    MatchEndStops(t, e + 1, end);
  }

  lemma ScanMatched(t: string, i: nat, key: string)
    requires i <= |t| && LineStart(t, i) && MatchAt(t, i).Some?
    ensures var m := MatchAt(t, i).value;
            Scan(t, i, key) == if Strip(m.key) == key then Items(m.items) else Scan(t, m.end, key)
  {
    hide MatchAt, Strip, Items;
  }

  lemma ScanHit(t: string, i: nat, lines: seq<string>, key: string) returns (next: nat)
    requires NoNewlines(lines) && Tail(t, i, Unlines(lines)) && LineStart(t, i) && HitAt(lines).Some?
    ensures var hit := HitAt(lines).value;
            && next <= |t| && LineStart(t, next) && Tail(t, next, Unlines(hit.below))
            && Scan(t, i, key) == if hit.reading.key == key then hit.reading.items else Scan(t, next, key)
  {
    hide MatchAt, Strip, Items, HitAt, SpaceRun, Unlines, NoNewlines, Tail, Scan;
    assert i <= |t| by { TailFits(t, i, Unlines(lines)); }
    MatchIsHit(t, i, lines);
    var m, hit := MatchAt(t, i).value, HitAt(lines).value;
    var end :| i <= end <= m.end && end < |t| && t[end] == '\n' && Tail(t, end + 1, Unlines(hit.below))
        && SpaceRun(t, end, m.end);
    next := end + 1;
    ScanFromEnd(t, end, m.end, key);
    ScanMatched(t, i, key);
  }

  lemma ScanStep(t: string, i: nat, key: string)
    requires i < |t| && MatchAt(t, i).None?
    ensures Scan(t, i, key) == Scan(t, i + 1, key)
  {
    hide MatchAt, Strip, Items;
  }

  lemma ScanMiss(t: string, i: nat, lines: seq<string>, key: string)
    requires NoNewlines(lines) && Tail(t, i, Unlines(lines)) && LineStart(t, i) && HitAt(lines).None? && lines != []
    ensures var next := i + |lines[0]| + 1;
            && next <= |t| && LineStart(t, next) && Tail(t, next, Unlines(lines[1..]))
            && Scan(t, i, key) == Scan(t, next, key)
  {
    hide MatchAt, HitAt, Scan, PySpace, Strip;
    MatchIsHit(t, i, lines);
    var line := lines[0];
    assert line in lines && '\n' !in line;
    assert Unlines(lines) == line + ("\n" + Unlines(lines[1..]));
    TailParts(t, i, line, "\n" + Unlines(lines[1..]));
    TailParts(t, i + |line|, "\n", Unlines(lines[1..]));
    ScanStep(t, i, key);
    forall n: nat | i + 1 <= n < i + |line| + 1 && t[n] == '-' ensures !LineStart(t, n) {
      assert t[i + (n - 1 - i)] == line[n - 1 - i];
    }
    ScanSkips(t, i + 1, i + |line| + 1, key);
  }

  /** The whole-text scan finds the first entry with the key that reading the lines yields, for
      every text whose lines all end in a line break. */
  lemma {:induction false} ScanReadsLines(t: string, i: nat, lines: seq<string>, key: string)
    requires NoNewlines(lines) && Tail(t, i, Unlines(lines)) && LineStart(t, i)
    ensures Scan(t, i, key) == FirstItems(Readings(lines), key)
    decreases |lines|
  {
    hide Scan, HitAt, Unlines, NoNewlines;
    if lines == [] {
      NoHit(t, i, key);
    } else if HitAt(lines).Some? {
      var hit := HitAt(lines).value;
      var next := ScanHit(t, i, lines, key);
      HitLines(lines);
      ScanReadsLines(t, next, hit.below, key);
      assert Readings(lines)[1..] == Readings(hit.below);
    } else {
      ScanMiss(t, i, lines, key);
      assert NoNewlines(lines[1..]) by { FewerLines(lines); }
      ScanReadsLines(t, i + |lines[0]| + 1, lines[1..], key);
    }
  }

  lemma FewerLines(lines: seq<string>)
    requires NoNewlines(lines) && lines != []
    ensures NoNewlines(lines[1..])
  {
  }

  lemma NoHit(t: string, i: nat, key: string)
    requires Tail(t, i, Unlines([]))
    ensures Scan(t, i, key) == [] && Readings([]) == []
  {
    assert i == |t|;
  }

  lemma HitLines(lines: seq<string>)
    requires NoNewlines(lines) && HitAt(lines).Some?
    ensures NoNewlines(HitAt(lines).value.below)
  {
    hide FirstColon, SkipBlank, Bracketed, Strip;
    CutIs(lines);
    var cut := FirstColon(lines).value;
    assert NoNewlines([cut.after] + cut.below);
    var blank := SkipBlankIs([cut.after] + cut.below);
    var rest := SkipBlank([cut.after] + cut.below);
    assert forall l | l in rest[1..] :: l in rest;
  }

  /** Where the white space behind a match is left does not matter to the scan. */
  lemma ScanFromEnd(t: string, end: nat, stop: nat, key: string)
    requires end <= stop <= |t| && end < |t| && t[end] == '\n' && SpaceRun(t, end, stop)
    ensures Scan(t, stop, key) == Scan(t, end + 1, key)
  {
    hide PySpace, Scan, MatchAt;
    PlainCharacters();
    if stop == end { ScanSkips(t, end, end + 1, key); } else { ScanSkips(t, end + 1, stop, key); }
  }

  /** `lookup` on a file that is read as such lines. */
  lemma LookupReadsLines(content: string, lines: seq<string>, key: string)
    requires NoNewlines(lines) && AsRead(content) == Unlines(lines)
    ensures LookupText(content, key) == FirstItems(Readings(lines), Strip(key))
  {
    hide Scan, Readings, Strip, AsRead;
    var t := Unlines(lines);
    assert t[0..] == t;
    ScanReadsLines(t, 0, lines, Strip(key));
  }

  lemma LookupPrintedLines(lines: seq<string>, key: string)
    requires forall l | l in lines :: OneLine(l)
    ensures LookupText(Unlines(lines), key) == FirstItems(Readings(lines), Strip(key))
  {
    hide Readings, Strip, AsRead, LookupText, Unlines;
    PlainCharacters();
    assert forall l | l in lines :: '\n' !in l && '\r' !in l;
    LinesReadBack(lines);
    LookupReadsLines(Unlines(lines), lines, key);
  }
}
