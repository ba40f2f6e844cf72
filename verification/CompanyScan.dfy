/** The company folder scan: a pruned walk, a bounded inventory of what it meets, and the
    selection of files to parse within a text budget. */
module CompanyScan {
  import opened PythonText
  import opened Wrappers
  import opened Sums

  /** A file the walk may visit; `size` is missing when it cannot be read. */
  datatype Candidate = Candidate(path: string, name: string, extension: string, symlink: bool, size: Option<nat>)

  /** A directory, its sub-directories and its files in name order. */
  datatype Dir = Dir(name: string, symlink: bool, dirs: seq<Dir>, files: seq<Candidate>)

  /** The path of the root "/" is written as the empty text. */
  datatype Root = FileRoot(file: Candidate) | DirRoot(path: string, dir: Dir)

  /** The fixed rules of the scan; `fnmatch` is the glob matcher. */
  datatype Rules = Rules(excludedDir: string -> bool, sensitiveName: string -> bool, allowedExtension: string -> bool,
                         fnmatch: (string, string) -> bool)

  datatype Caps = Caps(maxFiles: int, maxFileBytes: int, maxTotalBytes: int, maxDepth: int)

  const MAX_INVENTORY_ENTRIES: nat := 2000

  // ----- The user's blocklist -----

  function StripSlashes(s: string): string {
    if s != "" && s[|s| - 1] == '/' then StripSlashes(s[..|s| - 1]) else s
  }

  /** One pattern of the blocklist: the path itself, a folder above it, or a glob. */
  predicate MatchesPattern(rules: Rules, path: string, name: string, pattern: string) {
    var lowered, candidate := StripSlashes(Lower(path)), StripSlashes(Lower(pattern));
    candidate != "" &&
    (lowered == candidate || candidate + "/" <= lowered || rules.fnmatch(lowered, candidate)
        || rules.fnmatch(Lower(name), candidate))
  }

  predicate UserExcluded(rules: Rules, patterns: seq<string>, path: string, name: string) {
    exists k | 0 <= k < |patterns| :: MatchesPattern(rules, path, name, patterns[k])
  }

  lemma {:induction false} StripSlashesMeaning(s: string)
    ensures StripSlashes(s) <= s && forall i | |StripSlashes(s)| <= i < |s| :: s[i] == '/'
    ensures |StripSlashes(s)| > 0 ==> StripSlashes(s)[|StripSlashes(s)| - 1] != '/'
    decreases |s|
  {
    if s != "" && s[|s| - 1] == '/' { StripSlashesMeaning(s[..|s| - 1]); }
  }

  /** Without globs a pattern excludes a path exactly when the path, lowered and without trailing
      slashes, is the pattern or goes on behind it with a slash; the blank pattern excludes nothing. */
  lemma PatternMeaning(rules: Rules, path: string, name: string, pattern: string)
    ensures var lowered, wanted := StripSlashes(Lower(path)), StripSlashes(Lower(pattern));
            && (wanted == "" ==> !MatchesPattern(rules, path, name, pattern))
            && (|wanted| > 0 && (rules.fnmatch(lowered, wanted) || rules.fnmatch(Lower(name), wanted)) ==>
                  MatchesPattern(rules, path, name, pattern))
            && (|wanted| > 0 && !rules.fnmatch(lowered, wanted) && !rules.fnmatch(Lower(name), wanted) ==>
                  (MatchesPattern(rules, path, name, pattern) <==>
                      lowered == wanted || exists rest: string :: lowered == wanted + "/" + rest))
  {
    var lowered, wanted := StripSlashes(Lower(path)), StripSlashes(Lower(pattern));
    if wanted + "/" <= lowered {
      assert lowered == wanted + "/" + lowered[|wanted| + 1..];
    }
  }

  /** A directory is entered unless its name is excluded or starts with a dot, it is a link, or a
      pattern of the blocklist matches it. */
  lemma DescendsMeaning(rules: Rules, patterns: seq<string>, path: string, d: Dir)
    ensures Descends(rules, patterns, path, d) <==>
      && !rules.excludedDir(d.name) && (|d.name| > 0 ==> d.name[0] != '.') && !d.symlink
      && forall p | p in patterns :: !MatchesPattern(rules, path + "/" + d.name, d.name, p)
  {
    hide MatchesPattern;
    if UserExcluded(rules, patterns, path + "/" + d.name, d.name) {
      var k :| 0 <= k < |patterns| && MatchesPattern(rules, path + "/" + d.name, d.name, patterns[k]);
      assert patterns[k] in patterns;
    }
  }

  /** A longer blocklist excludes at least as much. */
  lemma MorePatternsExcludeMore(rules: Rules, patterns: seq<string>, more: seq<string>, path: string, name: string)
    requires (forall p | p in patterns :: p in more) && UserExcluded(rules, patterns, path, name)
    ensures UserExcluded(rules, more, path, name)
  {
    hide MatchesPattern;
    var k :| 0 <= k < |patterns| && MatchesPattern(rules, path, name, patterns[k]);
    assert patterns[k] in more;
    var j :| 0 <= j < |more| && more[j] == patterns[k];
  }

  // ----- The walk -----

  predicate Descends(rules: Rules, patterns: seq<string>, path: string, d: Dir) {
    && !rules.excludedDir(d.name) && !("." <= d.name) && !d.symlink
    && !UserExcluded(rules, patterns, path + "/" + d.name, d.name)
  }

  /** The candidates below a directory, as the top-down walk meets them. */
  function Walk(rules: Rules, patterns: seq<string>, path: string, d: Dir, depth: int, maxDepth: int): seq<Candidate>
    decreases d, 0
  {
    if depth >= maxDepth then [] else d.files + WalkAll(rules, patterns, path, d.dirs, depth + 1, maxDepth)
  }

  function WalkAll(rules: Rules, patterns: seq<string>, path: string, dirs: seq<Dir>, depth: int,
                   maxDepth: int): seq<Candidate>
    decreases dirs, 1
  {
    if dirs == [] then []
    else
      (if Descends(rules, patterns, path, dirs[0])
       then Walk(rules, patterns, path + "/" + dirs[0].name, dirs[0], depth, maxDepth) else [])
      + WalkAll(rules, patterns, path, dirs[1..], depth, maxDepth)
  }

  function Candidates(rules: Rules, patterns: seq<string>, roots: seq<Root>, maxDepth: int): seq<Candidate> {
    if roots == [] then []
    else
      (match roots[0]
       case FileRoot(c) => [c]
       case DirRoot(path, d) => Walk(rules, patterns, path, d, 0, maxDepth))
      + Candidates(rules, patterns, roots[1..], maxDepth)
  }

  /** A way down: which sub-directory is taken at each level, none of them pruned. */
  predicate OpenRoute(rules: Rules, patterns: seq<string>, path: string, d: Dir, route: seq<nat>)
    decreases route
  {
    route == [] ||
    (route[0] < |d.dirs| && var sub := d.dirs[route[0]];
     Descends(rules, patterns, path, sub) && OpenRoute(rules, patterns, path + "/" + sub.name, sub, route[1..]))
  }

  /** The files at the end of a way down. */
  function FilesAt(rules: Rules, patterns: seq<string>, path: string, d: Dir, route: seq<nat>): seq<Candidate>
    requires OpenRoute(rules, patterns, path, d, route)
    decreases route
  {
    if route == [] then d.files
    else var sub := d.dirs[route[0]]; FilesAt(rules, patterns, path + "/" + sub.name, sub, route[1..])
  }

  /** A file lies at the end of an unpruned way down of at most this many steps. */
  ghost predicate Reached(rules: Rules, patterns: seq<string>, path: string, d: Dir, steps: int, c: Candidate) {
    exists route :: |route| <= steps && OpenRoute(rules, patterns, path, d, route)
        && c in FilesAt(rules, patterns, path, d, route)
  }

  /** The same from one of several directories on, as far as it is not pruned itself. */
  ghost predicate ReachedBelow(rules: Rules, patterns: seq<string>, path: string, dirs: seq<Dir>, steps: int,
                               c: Candidate) {
    exists k | 0 <= k < |dirs| ::
      Descends(rules, patterns, path, dirs[k]) && Reached(rules, patterns, path + "/" + dirs[k].name, dirs[k], steps, c)
  }

  /** A file is visited exactly when no directory on the way to it is pruned and it lies less
      than `maxDepth` levels below the root. */
  lemma {:induction false} WalkMeaning(rules: Rules, patterns: seq<string>, path: string, d: Dir, depth: int,
                                       maxDepth: int, c: Candidate)
    ensures c in Walk(rules, patterns, path, d, depth, maxDepth) <==>
        Reached(rules, patterns, path, d, maxDepth - 1 - depth, c)
    decreases d, 0
  {
    hide Descends, WalkAll, FilesAt, OpenRoute;
    var steps := maxDepth - 1 - depth;
    if steps >= 0 {
      WalkAllMeaning(rules, patterns, path, d.dirs, depth + 1, maxDepth, c);
      ReachedSplits(rules, patterns, path, d, steps, c);
    }
  }

  lemma {:induction false} WalkAllMeaning(rules: Rules, patterns: seq<string>, path: string, dirs: seq<Dir>,
                                          depth: int, maxDepth: int, c: Candidate)
    ensures c in WalkAll(rules, patterns, path, dirs, depth, maxDepth) <==>
            ReachedBelow(rules, patterns, path, dirs, maxDepth - 1 - depth, c)
    decreases dirs, 1
  {
    hide Descends, Walk, Reached;
    if dirs != [] {
      WalkMeaning(rules, patterns, path + "/" + dirs[0].name, dirs[0], depth, maxDepth, c);
      WalkAllMeaning(rules, patterns, path, dirs[1..], depth, maxDepth, c);
      assert forall k | 1 <= k < |dirs| :: dirs[k] == dirs[1..][k - 1];
    }
  }

  lemma ReachedSplits(rules: Rules, patterns: seq<string>, path: string, d: Dir, steps: int, c: Candidate)
    requires steps >= 0
    ensures Reached(rules, patterns, path, d, steps, c) <==>
            c in d.files || ReachedBelow(rules, patterns, path, d.dirs, steps - 1, c)
  {
    hide Descends;
    if Reached(rules, patterns, path, d, steps, c) && c !in d.files {
      var route :| |route| <= steps && OpenRoute(rules, patterns, path, d, route)
          && c in FilesAt(rules, patterns, path, d, route);
      var k, rest := route[0], route[1..];
      assert OpenRoute(rules, patterns, path + "/" + d.dirs[k].name, d.dirs[k], rest)
        && c in FilesAt(rules, patterns, path + "/" + d.dirs[k].name, d.dirs[k], rest);
      assert Reached(rules, patterns, path + "/" + d.dirs[k].name, d.dirs[k], steps - 1, c);
    }
    if c in d.files {
      assert OpenRoute(rules, patterns, path, d, []) && c in FilesAt(rules, patterns, path, d, []);
    }
    forall k | 0 <= k < |d.dirs| && Descends(rules, patterns, path, d.dirs[k])
        && Reached(rules, patterns, path + "/" + d.dirs[k].name, d.dirs[k], steps - 1, c)
      ensures Reached(rules, patterns, path, d, steps, c)
    {
      var sub := d.dirs[k];
      var rest :| |rest| <= steps - 1 && OpenRoute(rules, patterns, path + "/" + sub.name, sub, rest)
        && c in FilesAt(rules, patterns, path + "/" + sub.name, sub, rest);
      var route := [k as nat] + rest;
      assert route[0] == k && route[1..] == rest;
      assert OpenRoute(rules, patterns, path, d, route);
    }
  }

  // ----- What happens to a candidate -----

  datatype Verdict = Skip(reason: string) | Eligible(size: nat)

  function Judge(rules: Rules, patterns: seq<string>, caps: Caps, c: Candidate): Verdict {
    if c.symlink then Skip("symlink")
    else if UserExcluded(rules, patterns, c.path, c.name) then Skip("user_excluded")
    else if rules.sensitiveName(c.name) then Skip("sensitive_name")
    else if !rules.allowedExtension(c.extension) then Skip("extension_not_allowed")
    else match c.size
      case None => Skip("unreadable")
      case Some(size) => if size > caps.maxFileBytes then Skip("too_large") else Eligible(size)
  }

  datatype Scanned = Scanned(path: string, size: nat, extension: string, included: bool, skipReason: string)

  /** The inventory line of a visited candidate. */
  function Line(rules: Rules, patterns: seq<string>, caps: Caps, c: Candidate): Scanned {
    match Judge(rules, patterns, caps, c)
    case Eligible(size) => Scanned(c.path, size, c.extension, true, "")
    case Skip(reason) =>
      Scanned(c.path, if reason == "too_large" && c.size.Some? then c.size.value else 0, c.extension, false, reason)
  }

  /** Adding an eligible candidate would break a cap. */
  predicate Overflows(caps: Caps, included: nat, totalBytes: nat, size: nat) {
    included >= caps.maxFiles || totalBytes + size > caps.maxTotalBytes
  }

  datatype Report = Report(files: seq<Scanned>, included: seq<Candidate>, skipped: map<string, int>,
                           totalBytes: nat, truncated: bool, visited: nat)

  function Listed(files: seq<Scanned>, line: Scanned): seq<Scanned> {
    if |files| < MAX_INVENTORY_ENTRIES then files + [line] else files
  }

  function Step(rules: Rules, patterns: seq<string>, caps: Caps, r: Report, c: Candidate): Report {
    var line := Line(rules, patterns, caps, c);
    match Judge(rules, patterns, caps, c)
    case Skip(reason) => r.(files := Listed(r.files, line), skipped := Plus(r.skipped, reason, 1),
        visited := r.visited + 1)
    case Eligible(size) =>
      if Overflows(caps, |r.included|, r.totalBytes, size) then r.(truncated := true)
      else r.(files := Listed(r.files, line), included := r.included + [c], totalBytes := r.totalBytes + size,
          visited := r.visited + 1)
  }

  /** The report over a list of candidates: the scan stops for good at the first overflow. */
  function Scan(rules: Rules, patterns: seq<string>, caps: Caps, cs: seq<Candidate>): Report {
    if cs == [] then Report([], [], map[], 0, false, 0)
    else
      var before := Scan(rules, patterns, caps, cs[..|cs| - 1]);
      if before.truncated then before else Step(rules, patterns, caps, before, cs[|cs| - 1])
  }

  lemma {:induction false} TruncatedStays(rules: Rules, patterns: seq<string>, caps: Caps, cs: seq<Candidate>, n: nat)
    requires n <= |cs| && Scan(rules, patterns, caps, cs[..n]).truncated
    ensures Scan(rules, patterns, caps, cs) == Scan(rules, patterns, caps, cs[..n])
    decreases |cs|
  {
    if n < |cs| {
      var front := cs[..|cs| - 1];
      assert front[..n] == cs[..n];
      TruncatedStays(rules, patterns, caps, front, n);
    } else {
      assert cs[..n] == cs;
    }
  }

  /** `note_skip`. */
  function NoteSkip(r: Report, c: Candidate, size: nat, reason: string): Report {
    r.(files := Listed(r.files, Scanned(c.path, size, c.extension, false, reason)),
        skipped := Plus(r.skipped, reason, 1),
       visited := r.visited + 1)
  }

  /** One turn of the loop over candidates: the checks in the order the scan makes them. */
  method Visit(rules: Rules, patterns: seq<string>, caps: Caps, r: Report, c: Candidate) returns (after: Report)
    ensures after == Step(rules, patterns, caps, r, c)
    ensures after.included == r.included || after.included == r.included + [c]
    ensures |after.included| > |r.included| <==>
      && !c.symlink && !UserExcluded(rules, patterns, c.path, c.name)
      && !rules.sensitiveName(c.name) && rules.allowedExtension(c.extension)
      && c.size.Some? && c.size.value <= caps.maxFileBytes
      && |r.included| < caps.maxFiles && r.totalBytes + c.size.value <= caps.maxTotalBytes
    ensures after.visited == r.visited + 1 || (after.truncated && after.visited == r.visited)
  {
    hide UserExcluded;
    if c.symlink { return NoteSkip(r, c, 0, "symlink"); }
    if UserExcluded(rules, patterns, c.path, c.name) { return NoteSkip(r, c, 0, "user_excluded"); }
    if rules.sensitiveName(c.name) { return NoteSkip(r, c, 0, "sensitive_name"); }
    if !rules.allowedExtension(c.extension) { return NoteSkip(r, c, 0, "extension_not_allowed"); }
    if c.size.None? { return NoteSkip(r, c, 0, "unreadable"); }
    var size := c.size.value;
    if size > caps.maxFileBytes { return NoteSkip(r, c, size, "too_large"); }
    if |r.included| >= caps.maxFiles || r.totalBytes + size > caps.maxTotalBytes { return r.(truncated := true); }
    after := r.(included := r.included + [c], totalBytes := r.totalBytes + size, visited := r.visited + 1,
                files := Listed(r.files, Scanned(c.path, size, c.extension, true, "")));
  }

  /** The loop over the candidates of one root, left at the first overflow. */
  method ScanRoot(rules: Rules, patterns: seq<string>, caps: Caps, ghost before: seq<Candidate>,
                  candidates: seq<Candidate>, r: Report)
    returns (report: Report)
    requires r == Scan(rules, patterns, caps, before)
    ensures report == Scan(rules, patterns, caps, before + candidates)
  {
    hide Step;
    report := r;
    assert before + candidates[..0] == before;
    for n := 0 to |candidates|
      invariant report == Scan(rules, patterns, caps, before + candidates[..n])
    {
      if report.truncated {
        assert (before + candidates)[..|before| + n] == before + candidates[..n];
        TruncatedStays(rules, patterns, caps, before + candidates, |before| + n);
        return;
      }
      ScanSnoc(rules, patterns, caps, before + candidates[..n], candidates[n]);
      assert before + candidates[..n + 1] == before + candidates[..n] + [candidates[n]];
      report := Visit(rules, patterns, caps, report, candidates[n]);
    }
    assert candidates[..|candidates|] == candidates;
  }

  lemma ScanSnoc(rules: Rules, patterns: seq<string>, caps: Caps, cs: seq<Candidate>, c: Candidate)
    ensures Scan(rules, patterns, caps, cs + [c]) ==
      var before := Scan(rules, patterns, caps, cs);
      if before.truncated then before else Step(rules, patterns, caps, before, c)
  {
    assert (cs + [c])[..|cs|] == cs;
  }

  /** The scan of the requested roots, root by root; the count of included files is the length
      of `included`. */
  method ScanCompanyPaths(rules: Rules, patterns: seq<string>, roots: seq<Root>, caps: Caps) returns (report: Report)
    ensures report == Scan(rules, patterns, caps, Candidates(rules, patterns, roots, caps.maxDepth))
  {
    hide Step, Walk, Judge;
    report := Report([], [], map[], 0, false, 0);
    ghost var done: seq<Candidate> := [];
    ghost var all := Candidates(rules, patterns, roots, caps.maxDepth);
    assert roots[0..] == roots;
    for k := 0 to |roots|
      invariant all == done + Candidates(rules, patterns, roots[k..], caps.maxDepth)
      invariant report == Scan(rules, patterns, caps, done)
    {
      var candidates := match roots[k]
        case FileRoot(c) => [c]
        case DirRoot(path, d) => Walk(rules, patterns, path, d, 0, caps.maxDepth);
      assert roots[k..][1..] == roots[k + 1..];
      report := ScanRoot(rules, patterns, caps, done, candidates, report);
      done := done + candidates;
    }
    assert all == done;
  }

  // ----- What a report says -----

  predicate IsEligible(rules: Rules, patterns: seq<string>, caps: Caps, c: Candidate) {
    Judge(rules, patterns, caps, c).Eligible?
  }

  function EligibleOf(rules: Rules, patterns: seq<string>, caps: Caps, cs: seq<Candidate>): seq<Candidate> {
    if cs == [] then []
    else
      var last := cs[|cs| - 1];
      EligibleOf(rules, patterns, caps, cs[..|cs| - 1]) + if IsEligible(rules, patterns, caps, last) then [last] else []
  }

  function Bytes(cs: seq<Candidate>): nat {
    if cs == [] then 0
    else Bytes(cs[..|cs| - 1]) + match cs[|cs| - 1].size case Some(size) => size case None => 0
  }

  function Lines(rules: Rules, patterns: seq<string>, caps: Caps, cs: seq<Candidate>): seq<Scanned> {
    seq(|cs|, i requires 0 <= i < |cs| => Line(rules, patterns, caps, cs[i]))
  }

  function Min(a: nat, b: nat): nat {
    if a < b then a else b
  }

  /** What a scan keeps at every moment. */
  ghost predicate ReportOk(rules: Rules, patterns: seq<string>, caps: Caps, cs: seq<Candidate>, r: Report) {
    && r.visited <= |cs| && (r.truncated <==> r.visited < |cs|)
    && r.included == EligibleOf(rules, patterns, caps, cs[..r.visited])
    && r.totalBytes == Bytes(r.included)
    && |r.included| + SumValues(r.skipped) == r.visited
    && r.files == Lines(rules, patterns, caps, cs[..Min(r.visited, MAX_INVENTORY_ENTRIES)])
    && (r.included != [] ==> |r.included| <= caps.maxFiles && r.totalBytes <= caps.maxTotalBytes)
    && (r.truncated ==> IsEligible(rules, patterns, caps, cs[r.visited]) &&
                        Overflows(caps, |r.included|, r.totalBytes, Judge(rules, patterns, caps, cs[r.visited]).size))
  }

  lemma EligibleSnoc(rules: Rules, patterns: seq<string>, caps: Caps, cs: seq<Candidate>, c: Candidate)
    ensures EligibleOf(rules, patterns, caps, cs + [c]) ==
            EligibleOf(rules, patterns, caps, cs) + if IsEligible(rules, patterns, caps, c) then [c] else []
    ensures Bytes(cs + [c]) == Bytes(cs) + match c.size case Some(size) => size case None => 0
  {
    assert (cs + [c])[..|cs|] == cs;
  }

  lemma LinesSnoc(rules: Rules, patterns: seq<string>, caps: Caps, cs: seq<Candidate>, c: Candidate)
    ensures Listed(Lines(rules, patterns, caps, cs[..Min(|cs|, MAX_INVENTORY_ENTRIES)]), Line(rules, patterns, caps, c))
            == Lines(rules, patterns, caps, (cs + [c])[..Min(|cs| + 1, MAX_INVENTORY_ENTRIES)])
  {
    hide Line;
    if |cs| < MAX_INVENTORY_ENTRIES {
      assert cs[..|cs|] == cs && (cs + [c])[..|cs| + 1] == cs + [c];
    } else {
      assert cs[..MAX_INVENTORY_ENTRIES] == (cs + [c])[..MAX_INVENTORY_ENTRIES];
    }
  }

  lemma StepOk(rules: Rules, patterns: seq<string>, caps: Caps, cs: seq<Candidate>, r: Report, c: Candidate)
    requires ReportOk(rules, patterns, caps, cs, r) && !r.truncated
    ensures ReportOk(rules, patterns, caps, cs + [c], Step(rules, patterns, caps, r, c))
  {
    hide EligibleOf, Bytes, Lines, Line, SumValues, UserExcluded;
    var all, after := cs + [c], Step(rules, patterns, caps, r, c);
    assert cs[..|cs|] == cs && all[..|cs|] == cs && all[..|cs| + 1] == all;
    EligibleSnoc(rules, patterns, caps, cs, c);
    EligibleSnoc(rules, patterns, caps, r.included, c);
    LinesSnoc(rules, patterns, caps, cs, c);
    match Judge(rules, patterns, caps, c)
    case Skip(reason) =>
      SumOfPlus(r.skipped, reason, 1);
      assert r.included + [] == r.included;
    case Eligible(size) =>
      assert all[..Min(|cs|, MAX_INVENTORY_ENTRIES)] == cs[..Min(|cs|, MAX_INVENTORY_ENTRIES)];
  }

  lemma PrefixOk(rules: Rules, patterns: seq<string>, caps: Caps, cs: seq<Candidate>, r: Report, c: Candidate)
    requires ReportOk(rules, patterns, caps, cs, r) && r.truncated
    ensures ReportOk(rules, patterns, caps, cs + [c], r)
  {
    hide EligibleOf, Bytes, Lines, SumValues, UserExcluded, Judge;
    var k := Min(r.visited, MAX_INVENTORY_ENTRIES);
    assert (cs + [c])[..r.visited] == cs[..r.visited] && (cs + [c])[..k] == cs[..k];
  }

  /** Every scan keeps its caps; each visited candidate is included or skipped for one reason;
      the inventory lists the visited candidates in walk order up to its own cap; and a scan
      stops early only in front of an eligible file that would break a cap. */
  lemma {:induction false} ScanIsOk(rules: Rules, patterns: seq<string>, caps: Caps, cs: seq<Candidate>)
    ensures ReportOk(rules, patterns, caps, cs, Scan(rules, patterns, caps, cs))
    decreases |cs|
  {
    hide ReportOk, Step;
    if cs == [] {
      EmptyOk(rules, patterns, caps);
    } else {
      var front, last := cs[..|cs| - 1], cs[|cs| - 1];
      ScanIsOk(rules, patterns, caps, front);
      assert cs == front + [last];
      var before := Scan(rules, patterns, caps, front);
      if before.truncated { PrefixOk(rules, patterns, caps, front, before, last); }
      else { StepOk(rules, patterns, caps, front, before, last); }
    }
  }

  /** The inventory holds the first two thousand visited candidates; an included one stands there
      as it is, a skipped one without its size unless that was the reason. */
  lemma InventoryMeaning(rules: Rules, patterns: seq<string>, caps: Caps, cs: seq<Candidate>)
    ensures var r := Scan(rules, patterns, caps, cs);
            && |r.files| == (if r.visited < 2000 then r.visited else 2000)
            && |r.files| <= |cs|
            && forall k | 0 <= k < |r.files| ::
                 && r.files[k].path == cs[k].path && r.files[k].extension == cs[k].extension
                 && (r.files[k].included <==> Judge(rules, patterns, caps, cs[k]).Eligible?)
                 && (cs[k].size.Some? && (r.files[k].included || r.files[k].skipReason == "too_large") ==>
                       r.files[k].size == cs[k].size.value)
  {
    hide EligibleOf, Bytes, SumValues, UserExcluded, Scan;
    ScanIsOk(rules, patterns, caps, cs);
  }

  lemma EmptyOk(rules: Rules, patterns: seq<string>, caps: Caps)
    ensures ReportOk(rules, patterns, caps, [], Report([], [], map[], 0, false, 0))
  {
  }
}
