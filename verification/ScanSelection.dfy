/** Which scanned files are parsed: the best ranked ones, within a budget of files and text. */
module ScanSelection {
  import opened Wrappers
  import opened Sublists
  import opened CompanyScan

  /** Priority, depth and negated size: compared in this order, smaller first. */
  datatype Rank = Rank(priority: int, depth: int, negatedSize: int)

  predicate RankLeq(a: Rank, b: Rank) {
    a.priority < b.priority || (a.priority == b.priority &&
    (a.depth < b.depth || (a.depth == b.depth && a.negatedSize <= b.negatedSize)))
  }

  /** Priority counts first, then depth, then size, larger files before smaller ones. */
  lemma RankOrder(a: Rank, b: Rank)
    ensures a.priority < b.priority ==> RankLeq(a, b) && !RankLeq(b, a)
    ensures a.priority == b.priority && a.depth < b.depth ==> RankLeq(a, b) && !RankLeq(b, a)
    ensures a.priority == b.priority && a.depth == b.depth ==> (RankLeq(a, b) <==> a.negatedSize <= b.negatedSize)
  {
  }

  type Ranking = Scanned -> Rank

  /** Puts an item behind all that do not rank after it. */
  function Insert(rank: Ranking, sorted: seq<Scanned>, x: Scanned): seq<Scanned> {
    if sorted == [] then [x]
    else if RankLeq(rank(sorted[|sorted| - 1]), rank(x)) then sorted + [x]
    else Insert(rank, sorted[..|sorted| - 1], x) + [sorted[|sorted| - 1]]
  }

  /** `sorted(included, key=rank)`. */
  function Ranked(rank: Ranking, items: seq<Scanned>): seq<Scanned> {
    if items == [] then [] else Insert(rank, Ranked(rank, items[..|items| - 1]), items[|items| - 1])
  }

  ghost predicate InRankOrder(rank: Ranking, items: seq<Scanned>) {
    forall i, j | 0 <= i < j < |items| :: RankLeq(rank(items[i]), rank(items[j]))
  }

  lemma {:induction false} InsertAdds(rank: Ranking, sorted: seq<Scanned>, x: Scanned)
    ensures multiset(Insert(rank, sorted, x)) == multiset(sorted) + multiset{x}
    ensures forall y | y in Insert(rank, sorted, x) :: y in sorted || y == x
    decreases |sorted|
  {
    if sorted != [] {
      var front, last := sorted[..|sorted| - 1], sorted[|sorted| - 1];
      assert sorted == front + [last];
      InsertAdds(rank, front, x);
    }
  }

  lemma OrderSnoc(rank: Ranking, items: seq<Scanned>, last: Scanned)
    requires InRankOrder(rank, items) && forall y | y in items :: RankLeq(rank(y), rank(last))
    ensures InRankOrder(rank, items + [last])
  {
    hide RankLeq;
  }

  lemma RankTotal(a: Rank, b: Rank)
    ensures RankLeq(a, b) || RankLeq(b, a)
  {
  }

  lemma RankTransitive(a: Rank, b: Rank, c: Rank)
    requires RankLeq(a, b) && RankLeq(b, c)
    ensures RankLeq(a, c)
  {
  }

  lemma {:induction false} InsertOrders(rank: Ranking, sorted: seq<Scanned>, x: Scanned)
    requires InRankOrder(rank, sorted)
    ensures InRankOrder(rank, Insert(rank, sorted, x))
    decreases |sorted|
  {
    assert sorted != [] ==> sorted == sorted[..|sorted| - 1] + [sorted[|sorted| - 1]];
    hide RankLeq, InRankOrder;
    if sorted == [] {
      OneInOrder(rank, x);
    } else {
      var front, last := sorted[..|sorted| - 1], sorted[|sorted| - 1];
      LastIsLatest(rank, front, last);
      assert sorted == front + [last];
      RankTotal(rank(last), rank(x));
      if RankLeq(rank(last), rank(x)) {
        forall y | y in sorted ensures RankLeq(rank(y), rank(x)) {
          if y in front { RankTransitive(rank(y), rank(last), rank(x)); }
        }
        OrderSnoc(rank, sorted, x);
      } else {
        InsertOrders(rank, front, x);
        InsertAdds(rank, front, x);
        OrderSnoc(rank, Insert(rank, front, x), last);
      }
    }
  }

  lemma OneInOrder(rank: Ranking, x: Scanned)
    ensures InRankOrder(rank, [x])
  {
  }

  lemma LastIsLatest(rank: Ranking, front: seq<Scanned>, last: Scanned)
    requires InRankOrder(rank, front + [last])
    ensures InRankOrder(rank, front) && forall y | y in front :: RankLeq(rank(y), rank(last))
  {
    hide RankLeq;
    var all := front + [last];
    forall y | y in front ensures RankLeq(rank(y), rank(last)) {
      var i :| 0 <= i < |front| && front[i] == y;
      assert RankLeq(rank(all[i]), rank(all[|front|]));
    }
    forall i, j | 0 <= i < j < |front| ensures RankLeq(rank(front[i]), rank(front[j])) {
      assert RankLeq(rank(all[i]), rank(all[j]));
    }
  }

  lemma NoneInOrder(rank: Ranking)
    ensures InRankOrder(rank, [])
  {
  }

  /** Ranking is a permutation in rank order. */
  lemma {:induction false} RankedMeaning(rank: Ranking, items: seq<Scanned>)
    ensures InRankOrder(rank, Ranked(rank, items)) && multiset(Ranked(rank, items)) == multiset(items)
    decreases |items|
  {
    hide InRankOrder, Insert;
    if items == [] {
      NoneInOrder(rank);
    } else {
      var front := items[..|items| - 1];
      RankedMeaning(rank, front);
      InsertOrders(rank, Ranked(rank, front), items[|items| - 1]);
      InsertAdds(rank, Ranked(rank, front), items[|items| - 1]);
      assert items == front + [items[|items| - 1]];
    }
  }

  /** The items of one rank, in list order. */
  function OfRank(rank: Ranking, items: seq<Scanned>, r: Rank): seq<Scanned> {
    if items == [] then []
    else OfRank(rank, items[..|items| - 1], r) + if rank(items[|items| - 1]) == r then [items[|items| - 1]] else []
  }

  lemma {:induction false} OfRankKeeps(rank: Ranking, items: seq<Scanned>, r: Rank)
    ensures Keeps(items, OfRank(rank, items, r), (x: Scanned) => rank(x) == r)
    decreases |items|
  {
    hide Keeps;
    var keep := (x: Scanned) => rank(x) == r;
    if items == [] {
      KeepsNothing(keep);
    } else {
      var front, last := items[..|items| - 1], items[|items| - 1];
      OfRankKeeps(rank, front, r);
      KeepsSnoc(front, OfRank(rank, front, r), keep, last);
      assert items == front + [last];
    }
  }

  lemma OfRankSnoc(rank: Ranking, items: seq<Scanned>, x: Scanned, r: Rank)
    ensures OfRank(rank, items + [x], r) == OfRank(rank, items, r) + if rank(x) == r then [x] else []
  {
    assert (items + [x])[..|items|] == items;
  }

  lemma {:induction false} InsertIsStable(rank: Ranking, sorted: seq<Scanned>, x: Scanned, r: Rank)
    ensures OfRank(rank, Insert(rank, sorted, x), r) == OfRank(rank, sorted, r) + if rank(x) == r then [x] else []
    decreases |sorted|
  {
    hide OfRank;
    OfRankSnoc(rank, sorted, x, r);
    if sorted == [] {
      assert [] + [x] == [x];
    } else if !RankLeq(rank(sorted[|sorted| - 1]), rank(x)) {
      var front, last := sorted[..|sorted| - 1], sorted[|sorted| - 1];
      assert sorted == front + [last];
      InsertIsStable(rank, front, x, r);
      OfRankSnoc(rank, front, last, r);
      OfRankSnoc(rank, Insert(rank, front, x), last, r);
    }
  }

  /** Files of equal rank keep the order in which the scan listed them. */
  lemma {:induction false} RankedIsStable(rank: Ranking, items: seq<Scanned>, r: Rank)
    ensures OfRank(rank, Ranked(rank, items), r) == OfRank(rank, items, r)
    decreases |items|
  {
    hide Insert, OfRank;
    if items != [] {
      var front, last := items[..|items| - 1], items[|items| - 1];
      assert items == front + [last];
      RankedIsStable(rank, front, r);
      InsertIsStable(rank, Ranked(rank, front), last, r);
      OfRankSnoc(rank, front, last, r);
    }
  }

  datatype Parsed = Parsed(path: string, text: string)

  /** What parsing a file yields; nothing if the file is gone or cannot be parsed. */
  type Parser = Scanned -> Option<string>

  function Chars(parsed: seq<Parsed>): nat {
    if parsed == [] then 0 else Chars(parsed[..|parsed| - 1]) + |parsed[|parsed| - 1].text|
  }

  /** Every file that parses, in full. */
  function AllParsed(items: seq<Scanned>, parse: Parser): seq<Parsed> {
    if items == [] then []
    else
      var last := items[|items| - 1];
      AllParsed(items[..|items| - 1], parse) + match parse(last) case None => []
          case Some(text) => [Parsed(last.path, text)]
  }

  predicate Exhausted(parsed: seq<Parsed>, maxFiles: int, maxChars: int) {
    |parsed| >= maxFiles || Chars(parsed) >= maxChars
  }

  function Cut(text: string, room: int): string {
    if room < 0 then "" else if |text| > room then text[..room] else text
  }

  /** The loop: parse in rank order until a budget is used up, cutting the last text to fit. */
  function Select(items: seq<Scanned>, parse: Parser, maxFiles: int, maxChars: int): seq<Parsed> {
    if items == [] then []
    else
      var before, last := Select(items[..|items| - 1], parse, maxFiles, maxChars), items[|items| - 1];
      if Exhausted(before, maxFiles, maxChars) then before
      else match parse(last)
        case None => before
        case Some(text) => before + [Parsed(last.path, Cut(text, maxChars - Chars(before)))]
  }

  lemma CharsSnoc(parsed: seq<Parsed>, p: Parsed)
    ensures Chars(parsed + [p]) == Chars(parsed) + |p.text|
  {
    assert (parsed + [p])[..|parsed|] == parsed;
  }

  lemma CutMeaning(text: string, room: int)
    requires room > 0
    ensures Cut(text, room) <= text && |Cut(text, room)| <= room
    ensures |Cut(text, room)| < room ==> Cut(text, room) == text
  {
  }

  /** The selection is the files that parse, in rank order, up to the budgets: never more files
      or characters than asked for, only the last text cut, and nothing left out that would
      still have had room. */
  lemma {:induction false} SelectMeaning(items: seq<Scanned>, parse: Parser, maxFiles: int, maxChars: int)
    ensures var s, all := Select(items, parse, maxFiles, maxChars), AllParsed(items, parse);
            && (s != [] ==> |s| <= maxFiles && Chars(s) <= maxChars)
            && |s| <= |all|
            && (forall k | 0 <= k < |s| :: s[k].path == all[k].path && s[k].text <= all[k].text)
            && (forall k | 0 <= k < |s| - 1 :: s[k] == all[k])
            && (|s| < maxFiles && Chars(s) < maxChars ==> s == all)
    decreases |items|
  {
    hide Chars, Cut;
    if items != [] {
      var front, last := items[..|items| - 1], items[|items| - 1];
      SelectMeaning(front, parse, maxFiles, maxChars);
      var before := Select(front, parse, maxFiles, maxChars);
      if !Exhausted(before, maxFiles, maxChars) && parse(last).Some? {
        CutMeaning(parse(last).value, maxChars - Chars(before));
        CharsSnoc(before, Parsed(last.path, Cut(parse(last).value, maxChars - Chars(before))));
      }
    }
  }

  method ParseScannedFiles(files: seq<Scanned>, rank: Ranking, parse: Parser, maxFiles: int, maxChars: int)
    returns (parsed: seq<Parsed>)
    ensures parsed == Select(Ranked(rank, Included(files)), parse, maxFiles, maxChars)
    ensures forall p | p in parsed :: exists f ::
      f in files && f.included && f.path == p.path && parse(f).Some? && p.text <= parse(f).value
    ensures parsed != [] ==> |parsed| <= maxFiles
  {
    hide Ranked, Included, Chars, Keeps, Select, Exhausted;
    var ranked := Ranked(rank, Included(files));
    forall p | p in Select(ranked, parse, maxFiles, maxChars) ensures exists f ::
      f in files && f.included && f.path == p.path && parse(f).Some? && p.text <= parse(f).value
    {
      SelectedAreIncluded(ranked, parse, maxFiles, maxChars, p);
      var f :| f in ranked && f.path == p.path && parse(f).Some? && p.text <= parse(f).value;
      RankedMembers(rank, files, f);
    }
    SelectMeaning(ranked, parse, maxFiles, maxChars);
    parsed := SelectFrom(ranked, parse, maxFiles, maxChars);
  }

  lemma RankedMembers(rank: Ranking, files: seq<Scanned>, f: Scanned)
    requires f in Ranked(rank, Included(files))
    ensures f in files && f.included
  {
    hide Ranked, Included, Keeps;
    RankedMeaning(rank, Included(files));
    IncludedMeaning(files);
    KeptMembers(files, Included(files), (g: Scanned) => g.included);
    assert f in multiset(Ranked(rank, Included(files)));
  }

  /** The loop over the ranked files. */
  method SelectFrom(ranked: seq<Scanned>, parse: Parser, maxFiles: int, maxChars: int) returns (parsed: seq<Parsed>)
    ensures parsed == Select(ranked, parse, maxFiles, maxChars)
  {
    hide Chars;
    parsed := [];
    NoChars();
    var used := 0;
    for n := 0 to |ranked|
      invariant parsed == Select(ranked[..n], parse, maxFiles, maxChars) && used == Chars(parsed)
    {
      if |parsed| >= maxFiles || used >= maxChars {
        SelectStops(ranked, n, parse, maxFiles, maxChars);
        return;
      }
      assert ranked[..n + 1][..n] == ranked[..n];
      var entry := parse(ranked[n]);
      if entry.Some? {
        var remaining := maxChars - used;
        var text := if |entry.value| > remaining then entry.value[..remaining] else entry.value;
        CharsSnoc(parsed, Parsed(ranked[n].path, text));
        used := used + |text|;
        parsed := parsed + [Parsed(ranked[n].path, text)];
      }
    }
    assert ranked[..|ranked|] == ranked;
  }

  lemma NoChars()
    ensures Chars([]) == 0
  {
  }

  function Included(files: seq<Scanned>): seq<Scanned> {
    if files == [] then []
    else Included(files[..|files| - 1]) + if files[|files| - 1].included then [files[|files| - 1]] else []
  }

  /** Exactly the lines of the inventory that the scan included, in their order. */
  lemma {:induction false} IncludedMeaning(files: seq<Scanned>)
    ensures Keeps(files, Included(files), (f: Scanned) => f.included)
    decreases |files|
  {
    hide Keeps;
    if files == [] {
      KeepsNothing((f: Scanned) => f.included);
    } else {
      var front, last := files[..|files| - 1], files[|files| - 1];
      IncludedMeaning(front);
      KeepsSnoc(front, Included(front), (f: Scanned) => f.included, last);
      assert files == front + [last];
    }
  }

  /** Only included files are parsed. */
  lemma {:induction false} SelectedAreIncluded(items: seq<Scanned>, parse: Parser, maxFiles: int, maxChars: int,
                                               p: Parsed)
    requires p in Select(items, parse, maxFiles, maxChars)
    ensures exists f :: f in items && f.path == p.path && parse(f).Some? && p.text <= parse(f).value
    decreases |items|
  {
    hide Exhausted, Chars;
    var front, last := items[..|items| - 1], items[|items| - 1];
    if p in Select(front, parse, maxFiles, maxChars) {
      SelectedAreIncluded(front, parse, maxFiles, maxChars, p);
      var f :| f in front && f.path == p.path && parse(f).Some? && p.text <= parse(f).value;
      assert f in items;
    } else {
      assert last in items;
    }
  }

  lemma {:induction false} SelectStops(items: seq<Scanned>, n: nat, parse: Parser, maxFiles: int, maxChars: int)
    requires n <= |items| && Exhausted(Select(items[..n], parse, maxFiles, maxChars), maxFiles, maxChars)
    ensures Select(items, parse, maxFiles, maxChars) == Select(items[..n], parse, maxFiles, maxChars)
    decreases |items|
  {
    if n < |items| {
      assert items[..|items| - 1][..n] == items[..n];
      SelectStops(items[..|items| - 1], n, parse, maxFiles, maxChars);
    } else {
      assert items[..n] == items;
    }
  }
}
