/** Which blocklists widen a scan: adding the other eligible paths brings in a file that a cap had
    left out. */
module ScanWidening {
  import opened CompanyScan
  import opened ScanNarrowing

  lemma ExcludedByEither(rules: Rules, patterns: seq<string>, others: seq<string>, path: string, name: string)
    ensures UserExcluded(rules, patterns + others, path, name)
      <==> UserExcluded(rules, patterns, path, name) || UserExcluded(rules, others, path, name)
  {
    hide MatchesPattern;
    var all := patterns + others;
    if UserExcluded(rules, patterns, path, name) {
      var k :| 0 <= k < |patterns| && MatchesPattern(rules, path, name, patterns[k]);
      assert all[k] == patterns[k];
    }
    if UserExcluded(rules, others, path, name) {
      var k :| 0 <= k < |others| && MatchesPattern(rules, path, name, others[k]);
      assert all[|patterns| + k] == others[k];
    }
  }

  // ----- The way to a file -----

  /** None of these patterns prunes a directory on this way down. */
  predicate WaySpared(rules: Rules, others: seq<string>, path: string, d: Dir, route: seq<nat>)
    decreases route
  {
    route == [] ||
    (route[0] < |d.dirs| && var sub := d.dirs[route[0]];
     && !UserExcluded(rules, others, path + "/" + sub.name, sub.name)
     && WaySpared(rules, others, path + "/" + sub.name, sub, route[1..]))
  }

  /** A way stays open under more patterns exactly if they spare it. */
  lemma {:induction false} SparedStaysOpen(rules: Rules, patterns: seq<string>, others: seq<string>, path: string,
                                           d: Dir, route: seq<nat>)
    ensures OpenRoute(rules, patterns + others, path, d, route)
      <==> OpenRoute(rules, patterns, path, d, route) && WaySpared(rules, others, path, d, route)
    ensures OpenRoute(rules, patterns + others, path, d, route) ==>
      FilesAt(rules, patterns + others, path, d, route) == FilesAt(rules, patterns, path, d, route)
    decreases route
  {
    hide UserExcluded;
    if route != [] && route[0] < |d.dirs| {
      var sub := d.dirs[route[0]];
      ExcludedByEither(rules, patterns, others, path + "/" + sub.name, sub.name);
      SparedStaysOpen(rules, patterns, others, path + "/" + sub.name, sub, route[1..]);
    }
  }

  /** The file is named as a root, or lies on an unpruned way below one that the other patterns
      spare too. */
  ghost predicate StillReached(rules: Rules, patterns: seq<string>, others: seq<string>, root: Root, maxDepth: int,
                               c: Candidate) {
    match root
    case FileRoot(f) => f == c
    case DirRoot(path, d) => exists route ::
      && |route| < maxDepth && OpenRoute(rules, patterns, path, d, route)
          && c in FilesAt(rules, patterns, path, d, route)
      && WaySpared(rules, others, path, d, route)
  }

  lemma ReachedByRoot(rules: Rules, patterns: seq<string>, others: seq<string>, path: string, d: Dir, maxDepth: int,
                      c: Candidate)
    ensures c in Walk(rules, patterns + others, path, d, 0, maxDepth)
      <==> StillReached(rules, patterns, others, DirRoot(path, d), maxDepth, c)
  {
    hide OpenRoute, FilesAt, WaySpared, Walk;
    WalkMeaning(rules, patterns + others, path, d, 0, maxDepth, c);
    if Reached(rules, patterns + others, path, d, maxDepth - 1, c) {
      var route :| |route| <= maxDepth - 1 && OpenRoute(rules, patterns + others, path, d, route)
                   && c in FilesAt(rules, patterns + others, path, d, route);
      SparedStaysOpen(rules, patterns, others, path, d, route);
    }
    if StillReached(rules, patterns, others, DirRoot(path, d), maxDepth, c) {
      var route :| |route| < maxDepth && OpenRoute(rules, patterns, path, d, route)
                   && c in FilesAt(rules, patterns, path, d, route) && WaySpared(rules, others, path, d, route);
      SparedStaysOpen(rules, patterns, others, path, d, route);
    }
  }

  /** A file is still a candidate under more patterns exactly if some root reaches it on a way
      that they spare. */
  lemma {:induction false} ReachedIsCandidate(rules: Rules, patterns: seq<string>, others: seq<string>,
                                              roots: seq<Root>, maxDepth: int, c: Candidate)
    ensures c in Candidates(rules, patterns + others, roots, maxDepth)
      <==> exists k | 0 <= k < |roots| :: StillReached(rules, patterns, others, roots[k], maxDepth, c)
    decreases |roots|
  {
    hide Walk;
    if roots != [] {
      var rest := roots[1..];
      ReachedIsCandidate(rules, patterns, others, rest, maxDepth, c);
      if roots[0].DirRoot? { ReachedByRoot(rules, patterns, others, roots[0].path, roots[0].dir, maxDepth, c); }
      hide StillReached;
      if j :| 0 <= j < |rest| && StillReached(rules, patterns, others, rest[j], maxDepth, c) {
        assert roots[j + 1] == rest[j];
      }
      assert forall k | 1 <= k < |roots| :: roots[k] == rest[k - 1];
    }
  }

  // ----- Excluding all other eligible files -----

  /** The paths of these files but one. */
  function OtherPaths(es: seq<Candidate>, y: Candidate): seq<string> {
    if es == [] then []
    else OtherPaths(es[..|es| - 1], y) + if es[|es| - 1] != y then [es[|es| - 1].path] else []
  }

  lemma {:induction false} OtherPathsMeaning(es: seq<Candidate>, y: Candidate)
    ensures forall p :: p in OtherPaths(es, y) <==> exists e :: e in es && e != y && e.path == p
    decreases |es|
  {
    if es != [] {
      OtherPathsMeaning(es[..|es| - 1], y);
      assert es == es[..|es| - 1] + [es[|es| - 1]];
    }
  }

  /** The other eligible paths, taken as patterns, leave this file alone: none of them matches it,
      and some way to it is spared. Every one of them matches its own file. */
  ghost predicate Separable(rules: Rules, patterns: seq<string>, caps: Caps, roots: seq<Root>, y: Candidate) {
    var es := EligibleOf(rules, patterns, caps, Candidates(rules, patterns, roots, caps.maxDepth));
    var others := OtherPaths(es, y);
    && !UserExcluded(rules, others, y.path, y.name)
    && (exists k | 0 <= k < |roots| :: StillReached(rules, patterns, others, roots[k], caps.maxDepth, y))
    && (forall e | e in es && e != y :: MatchesPattern(rules, e.path, e.name, e.path))
  }

  /** Said of the scan: with the other eligible paths added to the blocklist the file is still met
      and not excluded, and each of those paths matches its own file. */
  lemma SeparableMeaning(rules: Rules, patterns: seq<string>, caps: Caps, roots: seq<Root>, y: Candidate)
    ensures var es := EligibleOf(rules, patterns, caps, Candidates(rules, patterns, roots, caps.maxDepth));
            var others := OtherPaths(es, y);
            Separable(rules, patterns, caps, roots, y) <==>
              && !UserExcluded(rules, others, y.path, y.name)
              && y in Candidates(rules, patterns + others, roots, caps.maxDepth)
              && forall e | e in es && e != y :: MatchesPattern(rules, e.path, e.name, e.path)
  {
    hide StillReached, MatchesPattern, UserExcluded, EligibleOf, OtherPaths, Candidates;
    var es := EligibleOf(rules, patterns, caps, Candidates(rules, patterns, roots, caps.maxDepth));
    ReachedIsCandidate(rules, patterns, OtherPaths(es, y), roots, caps.maxDepth, y);
  }

  lemma OnlyOneIsLeft(rules: Rules, patterns: seq<string>, caps: Caps, roots: seq<Root>, y: Candidate)
    requires var es := EligibleOf(rules, patterns, caps, Candidates(rules, patterns, roots, caps.maxDepth)); y in es
    requires Separable(rules, patterns, caps, roots, y)
    ensures var es := EligibleOf(rules, patterns, caps, Candidates(rules, patterns, roots, caps.maxDepth));
            var more := patterns + OtherPaths(es, y);
            var fs := EligibleOf(rules, more, caps, Candidates(rules, more, roots, caps.maxDepth));
            Narrower(patterns, more) && y in fs && forall f | f in fs :: f == y
  {
    hide MatchesPattern, EligibleOf, Candidates, OtherPaths, Sub, StillReached;
    var cs := Candidates(rules, patterns, roots, caps.maxDepth);
    var es := EligibleOf(rules, patterns, caps, cs);
    var others := OtherPaths(es, y);
    var more := patterns + others;
    var ds := Candidates(rules, more, roots, caps.maxDepth);
    var fs := EligibleOf(rules, more, caps, ds);
    CandidatesNarrow(rules, patterns, more, caps, roots);
    SubMeaning(fs, es);
    EligibleMembers(rules, patterns, caps, cs);
    EligibleMembers(rules, more, caps, ds);
    ReachedIsCandidate(rules, patterns, others, roots, caps.maxDepth, y);
    ExcludedByEither(rules, patterns, others, y.path, y.name);
    OtherPathsMeaning(es, y);
    forall f | f in fs ensures f == y {
      if f != y {
        assert f.path in others;
        var j :| 0 <= j < |others| && others[j] == f.path;
        assert UserExcluded(rules, others, f.path, f.name);
        ExcludedByEither(rules, patterns, others, f.path, f.name);
      }
    }
  }

  /** Adding the paths of the other eligible files to the blocklist includes a file that was left
      out and would have fitted on its own. */
  lemma OtherPathsWiden(rules: Rules, patterns: seq<string>, caps: Caps, roots: seq<Root>, y: Candidate)
    requires var es := EligibleOf(rules, patterns, caps, Candidates(rules, patterns, roots, caps.maxDepth)); y in es
    requires FitsAlone(caps, y) && Separable(rules, patterns, caps, roots, y)
    ensures var es := EligibleOf(rules, patterns, caps, Candidates(rules, patterns, roots, caps.maxDepth));
            var more := patterns + OtherPaths(es, y);
            y in Scan(rules, more, caps, Candidates(rules, more, roots, caps.maxDepth)).included
  {
    hide EligibleOf, Candidates, OtherPaths, Scan, Greedy, Separable;
    var es := EligibleOf(rules, patterns, caps, Candidates(rules, patterns, roots, caps.maxDepth));
    var more := patterns + OtherPaths(es, y);
    var ds := Candidates(rules, more, roots, caps.maxDepth);
    OnlyOneIsLeft(rules, patterns, caps, roots, y);
    IncludedIsGreedy(rules, more, caps, ds);
    var fs := EligibleOf(rules, more, caps, ds);
    assert fs[0] in fs;
    FirstIsTaken(caps, fs);
  }

  /** Some longer blocklist makes the scan include a file that it did not include before. */
  ghost predicate SomeBlocklistWidens(rules: Rules, patterns: seq<string>, caps: Caps, roots: seq<Root>) {
    exists more: seq<string>, y: Candidate ::
      && Narrower(patterns, more)
      && y in Scan(rules, more, caps, Candidates(rules, more, roots, caps.maxDepth)).included
      && y !in Scan(rules, patterns, caps, Candidates(rules, patterns, roots, caps.maxDepth)).included
  }

  /** Where the eligible paths set the left-out files apart, a longer blocklist can widen the scan exactly when
      a cap left out an eligible file that would fit on its own. */
  lemma BlocklistWidensExactly(rules: Rules, patterns: seq<string>, caps: Caps, roots: seq<Root>)
    requires var cs := Candidates(rules, patterns, roots, caps.maxDepth);
      forall y | y in EligibleOf(rules, patterns, caps, cs) && FitsAlone(caps, y)
          && y !in Scan(rules, patterns, caps, cs).included ::
        Separable(rules, patterns, caps, roots, y)
    ensures SomeBlocklistWidens(rules, patterns, caps, roots) <==>
      var cs := Candidates(rules, patterns, roots, caps.maxDepth);
      exists y :: && y in EligibleOf(rules, patterns, caps, cs) && FitsAlone(caps, y)
                  && y !in Scan(rules, patterns, caps, cs).included
  {
    hide EligibleOf, Candidates, Scan, Separable, IsEligible;
    var cs := Candidates(rules, patterns, roots, caps.maxDepth);
    var es := EligibleOf(rules, patterns, caps, cs);
    if SomeBlocklistWidens(rules, patterns, caps, roots) {
      var more: seq<string>, y: Candidate :|
        && Narrower(patterns, more)
        && y in Scan(rules, more, caps, Candidates(rules, more, roots, caps.maxDepth)).included
        && y !in Scan(rules, patterns, caps, cs).included;
      WidenedOnlyWhenCapped(rules, patterns, more, caps, roots, y);
      EligibleMembers(rules, patterns, caps, cs);
      assert y in es;
    }
    if exists y :: y in es && FitsAlone(caps, y) && y !in Scan(rules, patterns, caps, cs).included {
      var y :| y in es && FitsAlone(caps, y) && y !in Scan(rules, patterns, caps, cs).included;
      OtherPathsWiden(rules, patterns, caps, roots, y);
      assert Narrower(patterns, patterns + OtherPaths(es, y));
    }
  }
}
