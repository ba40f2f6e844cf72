/** What a longer blocklist does to a scan: fewer files are eligible; fewer are included unless
    the shorter list ran into a cap. */
module ScanNarrowing {
  import opened CompanyScan

  /** `a` is `b` with some elements left out. */
  predicate Sub(a: seq<Candidate>, b: seq<Candidate>)
    decreases |b|
  {
    a == [] || (b != [] && ((a[|a| - 1] == b[|b| - 1] && Sub(a[..|a| - 1], b[..|b| - 1])) || Sub(a, b[..|b| - 1])))
  }

  lemma {:induction false} SubSame(a: seq<Candidate>)
    ensures Sub(a, a)
    decreases |a|
  {
    if a != [] { SubSame(a[..|a| - 1]); }
  }

  lemma SubSnoc(a: seq<Candidate>, b: seq<Candidate>, c: Candidate)
    requires Sub(a, b)
    ensures Sub(a, b + [c]) && Sub(a + [c], b + [c])
  {
    assert (b + [c])[..|b|] == b && (a + [c])[..|a|] == a;
  }

  lemma {:induction false} SubAdds(a: seq<Candidate>, b: seq<Candidate>, c: seq<Candidate>, d: seq<Candidate>)
    requires Sub(a, b) && Sub(c, d)
    ensures Sub(a + c, b + d)
    decreases |d|
  {
    if d == [] {
      assert a + c == a && b + d == b;
    } else {
      var front, last := d[..|d| - 1], d[|d| - 1];
      assert b + d == (b + front) + [last];
      if c == [] {
        SubAdds(a, b, c, front);
        SubSnoc(a + c, b + front, last);
      } else if c[|c| - 1] == last && Sub(c[..|c| - 1], front) {
        SubAdds(a, b, c[..|c| - 1], front);
        SubSnoc(a + c[..|c| - 1], b + front, last);
        assert a + c == (a + c[..|c| - 1]) + [last];
      } else {
        SubAdds(a, b, c, front);
        SubSnoc(a + c, b + front, last);
      }
    }
  }

  function SizeOf(c: Candidate): nat {
    match c.size case Some(size) => size case None => 0
  }

  lemma {:induction false} SubMeaning(a: seq<Candidate>, b: seq<Candidate>)
    requires Sub(a, b)
    ensures |a| <= |b| && Bytes(a) <= Bytes(b) && forall c | c in a :: c in b
    decreases |b|
  {
    if b != [] {
      var front, last := b[..|b| - 1], b[|b| - 1];
      assert b == front + [last];
      if a != [] {
        assert a == a[..|a| - 1] + [a[|a| - 1]];
        SubMeaning(if a[|a| - 1] == last && Sub(a[..|a| - 1], front) then a[..|a| - 1] else a, front);
      }
    }
  }

  lemma {:induction false} EligibleAdds(rules: Rules, patterns: seq<string>, caps: Caps, a: seq<Candidate>,
                                        b: seq<Candidate>)
    ensures EligibleOf(rules, patterns, caps, a + b) ==
        EligibleOf(rules, patterns, caps, a) + EligibleOf(rules, patterns, caps, b)
    decreases |b|
  {
    if b == [] {
      assert a + b == a;
    } else {
      assert a + b == (a + b[..|b| - 1]) + [b[|b| - 1]];
      EligibleSnoc(rules, patterns, caps, a + b[..|b| - 1], b[|b| - 1]);
      EligibleAdds(rules, patterns, caps, a, b[..|b| - 1]);
    }
  }

  /** Two blocklists, the second at least as long. */
  ghost predicate Narrower(patterns: seq<string>, more: seq<string>) {
    forall p | p in patterns :: p in more
  }

  lemma EligibleNarrows(rules: Rules, patterns: seq<string>, more: seq<string>, caps: Caps, c: Candidate)
    requires Narrower(patterns, more) && IsEligible(rules, more, caps, c)
    ensures IsEligible(rules, patterns, caps, c) && Judge(rules, patterns, caps, c) == Judge(rules, more, caps, c)
  {
    hide UserExcluded;
    if UserExcluded(rules, patterns, c.path, c.name) { MorePatternsExcludeMore(rules, patterns, more, c.path, c.name); }
  }

  lemma {:induction false} FilesNarrow(rules: Rules, patterns: seq<string>, more: seq<string>, caps: Caps,
                                       cs: seq<Candidate>)
    requires Narrower(patterns, more)
    ensures Sub(EligibleOf(rules, more, caps, cs), EligibleOf(rules, patterns, caps, cs))
    decreases |cs|
  {
    hide IsEligible;
    if cs != [] {
      var front, last := cs[..|cs| - 1], cs[|cs| - 1];
      FilesNarrow(rules, patterns, more, caps, front);
      var a, b := EligibleOf(rules, more, caps, front), EligibleOf(rules, patterns, caps, front);
      SubSnoc(a, b, last);
      assert a + [] == a && b + [] == b;
      if IsEligible(rules, more, caps, last) { EligibleNarrows(rules, patterns, more, caps, last); }
    }
  }

  lemma DescendsNarrows(rules: Rules, patterns: seq<string>, more: seq<string>, path: string, d: Dir)
    requires Narrower(patterns, more) && Descends(rules, more, path, d)
    ensures Descends(rules, patterns, path, d)
  {
    hide UserExcluded;
    if UserExcluded(rules, patterns, path + "/" + d.name, d.name) {
      MorePatternsExcludeMore(rules, patterns, more, path + "/" + d.name, d.name);
    }
  }

  lemma {:induction false} WalkNarrows(rules: Rules, patterns: seq<string>, more: seq<string>, caps: Caps,
                                       path: string, d: Dir, depth: int)
    requires Narrower(patterns, more)
    ensures Sub(EligibleOf(rules, more, caps, Walk(rules, more, path, d, depth, caps.maxDepth)),
                EligibleOf(rules, patterns, caps, Walk(rules, patterns, path, d, depth, caps.maxDepth)))
    decreases d, 0
  {
    hide EligibleOf, Sub, WalkAll, Narrower;
    if depth >= caps.maxDepth {
      SubSame(EligibleOf(rules, more, caps, []));
      FilesNarrow(rules, patterns, more, caps, []);
    } else {
      var below, above := WalkAll(rules, more, path, d.dirs, depth + 1, caps.maxDepth),
          WalkAll(rules, patterns, path, d.dirs, depth + 1, caps.maxDepth);
      FilesNarrow(rules, patterns, more, caps, d.files);
      WalkAllNarrows(rules, patterns, more, caps, path, d.dirs, depth + 1);
      EligibleAdds(rules, more, caps, d.files, below);
      EligibleAdds(rules, patterns, caps, d.files, above);
      SubAdds(EligibleOf(rules, more, caps, d.files), EligibleOf(rules, patterns, caps, d.files),
              EligibleOf(rules, more, caps, below), EligibleOf(rules, patterns, caps, above));
    }
  }

  lemma {:induction false} WalkAllNarrows(rules: Rules, patterns: seq<string>, more: seq<string>, caps: Caps,
                                          path: string, dirs: seq<Dir>, depth: int)
    requires Narrower(patterns, more)
    ensures Sub(EligibleOf(rules, more, caps, WalkAll(rules, more, path, dirs, depth, caps.maxDepth)),
                EligibleOf(rules, patterns, caps, WalkAll(rules, patterns, path, dirs, depth, caps.maxDepth)))
    decreases dirs, 1
  {
    hide EligibleOf, Sub, Walk, Narrower, Descends;
    if dirs == [] {
      FilesNarrow(rules, patterns, more, caps, []);
    } else {
      var d, sub := dirs[0], path + "/" + dirs[0].name;
      var inner := if Descends(rules, more, path, d) then Walk(rules, more, sub, d, depth, caps.maxDepth) else [];
      var outer := if Descends(rules, patterns, path, d) then Walk(rules, patterns, sub, d, depth, caps.maxDepth)
          else [];
      var innerRest, outerRest := WalkAll(rules, more, path, dirs[1..], depth, caps.maxDepth),
          WalkAll(rules, patterns, path, dirs[1..], depth, caps.maxDepth);
      WalkNarrows(rules, patterns, more, caps, sub, d, depth);
      NothingIsSub(rules, more, caps, EligibleOf(rules, patterns, caps, outer));
      if Descends(rules, more, path, d) { DescendsNarrows(rules, patterns, more, path, d); }
      WalkAllNarrows(rules, patterns, more, caps, path, dirs[1..], depth);
      EligibleAdds(rules, more, caps, inner, innerRest);
      EligibleAdds(rules, patterns, caps, outer, outerRest);
      SubAdds(EligibleOf(rules, more, caps, inner), EligibleOf(rules, patterns, caps, outer),
              EligibleOf(rules, more, caps, innerRest), EligibleOf(rules, patterns, caps, outerRest));
    }
  }

  lemma NothingIsSub(rules: Rules, patterns: seq<string>, caps: Caps, b: seq<Candidate>)
    ensures Sub(EligibleOf(rules, patterns, caps, []), b)
  {
  }

  /** A longer blocklist makes a sub-list of the files eligible. */
  lemma {:induction false} CandidatesNarrow(rules: Rules, patterns: seq<string>, more: seq<string>, caps: Caps,
                                            roots: seq<Root>)
    requires Narrower(patterns, more)
    ensures Sub(EligibleOf(rules, more, caps, Candidates(rules, more, roots, caps.maxDepth)),
                EligibleOf(rules, patterns, caps, Candidates(rules, patterns, roots, caps.maxDepth)))
    decreases |roots|
  {
    hide EligibleOf, Sub, Walk, Narrower;
    if roots == [] {
      FilesNarrow(rules, patterns, more, caps, []);
    } else {
      var inner := match roots[0] case FileRoot(c) => [c]
          case DirRoot(path, d) => Walk(rules, more, path, d, 0, caps.maxDepth);
      var outer := match roots[0] case FileRoot(c) => [c]
          case DirRoot(path, d) => Walk(rules, patterns, path, d, 0, caps.maxDepth);
      var innerRest, outerRest := Candidates(rules, more, roots[1..], caps.maxDepth),
          Candidates(rules, patterns, roots[1..], caps.maxDepth);
      match roots[0] {
        case FileRoot(c) => FilesNarrow(rules, patterns, more, caps, [c]);
        case DirRoot(path, d) => WalkNarrows(rules, patterns, more, caps, path, d, 0);
      }
      CandidatesNarrow(rules, patterns, more, caps, roots[1..]);
      EligibleAdds(rules, more, caps, inner, innerRest);
      EligibleAdds(rules, patterns, caps, outer, outerRest);
      SubAdds(EligibleOf(rules, more, caps, inner), EligibleOf(rules, patterns, caps, outer),
              EligibleOf(rules, more, caps, innerRest), EligibleOf(rules, patterns, caps, outerRest));
    }
  }

  // ----- What is included -----

  /** The eligible files a scan takes: one after the other until the first that overflows. */
  function Greedy(caps: Caps, es: seq<Candidate>): seq<Candidate> {
    if es == [] then []
    else
      var taken, last := Greedy(caps, es[..|es| - 1]), es[|es| - 1];
      if |taken| < |es| - 1 || Overflows(caps, |taken|, Bytes(taken), SizeOf(last)) then taken else taken + [last]
  }

  lemma GreedySnoc(caps: Caps, es: seq<Candidate>, c: Candidate)
    ensures Greedy(caps, es + [c]) == var taken := Greedy(caps, es);
      if |taken| < |es| || Overflows(caps, |taken|, Bytes(taken), SizeOf(c)) then taken else taken + [c]
  {
    assert (es + [c])[..|es|] == es;
  }

  lemma {:induction false} GreedyIsPrefix(caps: Caps, es: seq<Candidate>)
    ensures |Greedy(caps, es)| <= |es| && Greedy(caps, es) == es[..|Greedy(caps, es)|]
    ensures Greedy(caps, es) != [] ==>
        |Greedy(caps, es)| <= caps.maxFiles && Bytes(Greedy(caps, es)) <= caps.maxTotalBytes
    decreases |es|
  {
    if es != [] {
      var front, last := es[..|es| - 1], es[|es| - 1];
      GreedyIsPrefix(caps, front);
      assert es == front + [last];
      EligibleBytes(Greedy(caps, front), last);
    }
  }

  lemma EligibleBytes(cs: seq<Candidate>, c: Candidate)
    ensures Bytes(cs + [c]) == Bytes(cs) + SizeOf(c)
  {
    assert (cs + [c])[..|cs|] == cs;
  }

  ghost predicate GreedyReport(caps: Caps, es: seq<Candidate>, r: Report) {
    r.included == Greedy(caps, es) && r.totalBytes == Bytes(r.included) && (r.truncated <==> |r.included| < |es|)
  }

  lemma StepIsGreedy(rules: Rules, patterns: seq<string>, caps: Caps, es: seq<Candidate>, r: Report, c: Candidate)
    requires GreedyReport(caps, es, r)
    ensures GreedyReport(caps, es + if IsEligible(rules, patterns, caps, c) then [c] else [],
                         if r.truncated then r else Step(rules, patterns, caps, r, c))
  {
    hide UserExcluded, Line, Greedy, Bytes;
    GreedyIsPrefix(caps, es);
    GreedySnoc(caps, es, c);
    EligibleBytes(r.included, c);
    assert es + [] == es;
  }

  /** The included files of a scan are the greedy choice from the eligible ones, and the scan is
      truncated exactly when that leaves some out. */
  lemma {:induction false} IncludedIsGreedy(rules: Rules, patterns: seq<string>, caps: Caps, cs: seq<Candidate>)
    ensures GreedyReport(caps, EligibleOf(rules, patterns, caps, cs), Scan(rules, patterns, caps, cs))
    decreases |cs|
  {
    hide IsEligible, Step, GreedyReport;
    if cs != [] {
      var front := cs[..|cs| - 1];
      IncludedIsGreedy(rules, patterns, caps, front);
      StepIsGreedy(rules, patterns, caps, EligibleOf(rules, patterns, caps, front), Scan(rules, patterns, caps, front),
          cs[|cs| - 1]);
    } else {
      assert GreedyReport(caps, [], Report([], [], map[], 0, false, 0)) by { NothingIsGreedy(caps); }
    }
  }

  lemma NothingIsGreedy(caps: Caps)
    ensures GreedyReport(caps, [], Report([], [], map[], 0, false, 0))
  {
  }

  lemma {:induction false} BytesMonotone(es: seq<Candidate>, k: nat)
    requires k <= |es|
    ensures Bytes(es[..k]) <= Bytes(es)
    decreases |es|
  {
    if k < |es| {
      assert es[..|es| - 1][..k] == es[..k];
      BytesMonotone(es[..|es| - 1], k);
    } else {
      assert es[..k] == es;
    }
  }

  /** What fits all together is taken as a whole. */
  lemma {:induction false} GreedyTakesAll(caps: Caps, es: seq<Candidate>)
    requires es != [] ==> |es| <= caps.maxFiles && Bytes(es) <= caps.maxTotalBytes
    ensures Greedy(caps, es) == es
    decreases |es|
  {
    if es != [] {
      var front, last := es[..|es| - 1], es[|es| - 1];
      BytesMonotone(es, |es| - 1);
      GreedyTakesAll(caps, front);
      assert es == front + [last];
    }
  }

  /** If the shorter blocklist did not run into a cap, neither does the longer one, and the
      longer one includes a sub-list of the files. */
  lemma {:induction false} UntruncatedNarrows(rules: Rules, patterns: seq<string>, more: seq<string>, caps: Caps,
                                              roots: seq<Root>)
    requires Narrower(patterns, more)
    ensures var r, s := Scan(rules, patterns, caps, Candidates(rules, patterns, roots, caps.maxDepth)),
                        Scan(rules, more, caps, Candidates(rules, more, roots, caps.maxDepth));
            !r.truncated ==> !s.truncated && Sub(s.included, r.included)
  {
    hide Scan, Candidates, EligibleOf, Sub, Narrower, Greedy, Bytes;
    var cs, ds := Candidates(rules, patterns, roots, caps.maxDepth), Candidates(rules, more, roots, caps.maxDepth);
    var es, fs := EligibleOf(rules, patterns, caps, cs), EligibleOf(rules, more, caps, ds);
    CandidatesNarrow(rules, patterns, more, caps, roots);
    IncludedIsGreedy(rules, patterns, caps, cs);
    IncludedIsGreedy(rules, more, caps, ds);
    SubMeaning(fs, es);
    GreedyIsPrefix(caps, es);
    if |Greedy(caps, es)| == |es| {
      assert es[..|es|] == es;
      GreedyTakesAll(caps, fs);
    }
  }

  // ----- When a longer blocklist can widen a scan -----

  function Keep(es: seq<Candidate>, keep: Candidate -> bool): seq<Candidate> {
    if es == [] then []
    else Keep(es[..|es| - 1], keep) + if keep(es[|es| - 1]) then [es[|es| - 1]] else []
  }

  /** Excluding some eligible files can bring in one that was not included before. */
  ghost predicate CanWiden(caps: Caps, es: seq<Candidate>) {
    exists keep: Candidate -> bool, y: Candidate :: y in Greedy(caps, Keep(es, keep)) && y !in Greedy(caps, es)
  }

  predicate FitsAlone(caps: Caps, c: Candidate) {
    caps.maxFiles >= 1 && SizeOf(c) <= caps.maxTotalBytes
  }

  lemma {:induction false} KeepMembers(es: seq<Candidate>, keep: Candidate -> bool)
    ensures forall c :: c in Keep(es, keep) <==> c in es && keep(c)
    decreases |es|
  {
    if es != [] {
      KeepMembers(es[..|es| - 1], keep);
      assert es == es[..|es| - 1] + [es[|es| - 1]];
    }
  }

  lemma {:induction false} MemberWithinBytes(es: seq<Candidate>, c: Candidate)
    requires c in es
    ensures SizeOf(c) <= Bytes(es)
    decreases |es|
  {
    if c != es[|es| - 1] {
      assert es == es[..|es| - 1] + [es[|es| - 1]];
      MemberWithinBytes(es[..|es| - 1], c);
    }
  }

  lemma {:induction false} FirstIsTaken(caps: Caps, es: seq<Candidate>)
    requires es != [] && FitsAlone(caps, es[0])
    ensures es[0] in Greedy(caps, es)
    decreases |es|
  {
    if |es| == 1 {
      assert es[..0] == [];
    } else {
      FirstIsTaken(caps, es[..|es| - 1]);
    }
  }

  /** A longer blocklist can widen the scan exactly when some eligible file was left out that
      would fit the caps on its own; in particular never when the scan was not truncated. */
  lemma WidensExactly(caps: Caps, es: seq<Candidate>)
    ensures CanWiden(caps, es) <==> exists y :: y in es && y !in Greedy(caps, es) && FitsAlone(caps, y)
  {
    hide Greedy, Keep, Bytes;
    if CanWiden(caps, es) {
      var keep: Candidate -> bool, y: Candidate :| y in Greedy(caps, Keep(es, keep)) && y !in Greedy(caps, es);
      KeepMembers(es, keep);
      GreedyIsPrefix(caps, Keep(es, keep));
      MemberWithinBytes(Greedy(caps, Keep(es, keep)), y);
    }
    if exists y :: y in es && y !in Greedy(caps, es) && FitsAlone(caps, y) {
      var y :| y in es && y !in Greedy(caps, es) && FitsAlone(caps, y);
      var keep := (c: Candidate) => c == y;
      KeepMembers(es, keep);
      var kept := Keep(es, keep);
      assert y in kept;
      assert kept[0] in kept;
      FirstIsTaken(caps, kept);
    }
  }

  /** A file that only the longer blocklist includes was eligible all along: the shorter list's
      scan hit a cap and left it out although it would have fitted on its own. */
  lemma WidenedOnlyWhenCapped(rules: Rules, patterns: seq<string>, more: seq<string>, caps: Caps, roots: seq<Root>,
                              y: Candidate)
    requires Narrower(patterns, more)
    ensures var cs := Candidates(rules, patterns, roots, caps.maxDepth);
            var r, s := Scan(rules, patterns, caps, cs),
                Scan(rules, more, caps, Candidates(rules, more, roots, caps.maxDepth));
            y in s.included && y !in r.included ==>
              r.truncated && y in cs && IsEligible(rules, patterns, caps, y) && FitsAlone(caps, y)
  {
    hide Scan, Candidates, EligibleOf, Sub, Narrower, Greedy, Bytes, IsEligible;
    var cs, ds := Candidates(rules, patterns, roots, caps.maxDepth), Candidates(rules, more, roots, caps.maxDepth);
    var es, fs := EligibleOf(rules, patterns, caps, cs), EligibleOf(rules, more, caps, ds);
    CandidatesNarrow(rules, patterns, more, caps, roots);
    IncludedIsGreedy(rules, patterns, caps, cs);
    IncludedIsGreedy(rules, more, caps, ds);
    SubMeaning(fs, es);
    GreedyIsPrefix(caps, es);
    GreedyIsPrefix(caps, fs);
    EligibleMembers(rules, patterns, caps, cs);
    assert es[..|es|] == es;
    if y in Greedy(caps, fs) && y !in Greedy(caps, es) {
      MemberWithinBytes(Greedy(caps, fs), y);
    }
  }

  lemma {:induction false} EligibleMembers(rules: Rules, patterns: seq<string>, caps: Caps, cs: seq<Candidate>)
    ensures forall c :: c in EligibleOf(rules, patterns, caps, cs) <==> c in cs && IsEligible(rules, patterns, caps, c)
    decreases |cs|
  {
    hide IsEligible;
    if cs != [] {
      EligibleMembers(rules, patterns, caps, cs[..|cs| - 1]);
      assert cs == cs[..|cs| - 1] + [cs[|cs| - 1]];
    }
  }

  /** A scan of two named files. */
  lemma TwoFiles(rules: Rules, patterns: seq<string>, caps: Caps, a: Candidate, b: Candidate)
    ensures Scan(rules, patterns, caps, Candidates(rules, patterns, [FileRoot(a), FileRoot(b)], caps.maxDepth)).included
      == Greedy(caps, (if IsEligible(rules, patterns, caps, a) then [a] else [])
          + if IsEligible(rules, patterns, caps, b) then [b] else [])
  {
    hide IsEligible, Scan, Greedy, Bytes;
    var roots := [FileRoot(a), FileRoot(b)];
    assert roots[1..] == [FileRoot(b)] && [FileRoot(b)][1..] == [];
    assert Candidates(rules, patterns, [FileRoot(b)], caps.maxDepth) == [b] + [] == [b];
    assert Candidates(rules, patterns, roots, caps.maxDepth) == [a] + [b];
    assert [] + [a] == [a];
    EligibleSnoc(rules, patterns, caps, [], a);
    EligibleSnoc(rules, patterns, caps, [a], b);
    IncludedIsGreedy(rules, patterns, caps, [a] + [b]);
  }

  /** It does happen: with room for one file, excluding the first of two brings in the second. */
  lemma BlocklistCanWiden(rules: Rules, caps: Caps, a: Candidate, b: Candidate)
    requires caps.maxFiles == 1 && FitsAlone(caps, a) && FitsAlone(caps, b)
    requires IsEligible(rules, [], caps, a) && IsEligible(rules, [], caps, b)
    requires MatchesPattern(rules, a.path, a.name, a.path) && !MatchesPattern(rules, b.path, b.name, a.path)
    ensures var roots := [FileRoot(a), FileRoot(b)];
            && Scan(rules, [], caps, Candidates(rules, [], roots, caps.maxDepth)).included == [a]
            && Scan(rules, [a.path], caps, Candidates(rules, [a.path], roots, caps.maxDepth)).included == [b]
  {
    hide MatchesPattern, Scan, Greedy, Candidates;
    assert [a.path][0] == a.path;
    assert UserExcluded(rules, [a.path], a.path, a.name) && !UserExcluded(rules, [a.path], b.path, b.name);
    TwoFiles(rules, [], caps, a, b);
    TwoFiles(rules, [a.path], caps, a, b);
    GreedyOfTwo(caps, a, b);
    assert [a] + [b] == [a, b] && [] + [b] == [b];
  }

  lemma GreedyOfTwo(caps: Caps, a: Candidate, b: Candidate)
    requires caps.maxFiles == 1 && FitsAlone(caps, a) && FitsAlone(caps, b)
    ensures Greedy(caps, [a, b]) == [a] && Greedy(caps, [b]) == [b]
  {
    assert [a, b][..1] == [a] && [a][..0] == [] && [b][..0] == [];
    assert Greedy(caps, []) == [] && Bytes([]) == 0;
    assert Greedy(caps, [a]) == [] + [a] == [a];
    assert Greedy(caps, [b]) == [] + [b] == [b];
  }
}
