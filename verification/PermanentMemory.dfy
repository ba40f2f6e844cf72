/** Permanent memory: the files of the archive that count as sources, the deletion workflow that
    tombstones them, and the queries that must no longer return what was tombstoned. */
module PermanentMemory {
  import opened Text
  import opened PythonText
  import opened Sublists
  import opened Wrappers

  /** A path below the archive, as its components. */
  type Path = seq<string>

  datatype File = File(path: Path, title: string, excerpt: string, updatedAt: int)

  datatype Kind = PatchLog | Conversation | PromotedMemory | PatchRecord | Upload | Document | Unknown

  datatype Source = Source(id: string, kind: Kind, title: string, excerpt: string, updatedAt: int)

  datatype Status = Pending | Approved | Rejected

  datatype Request = Request(id: string, targetId: string, sourcePath: string, status: Status, decidedBy: string)

  datatype Tombstone = Tombstone(targetId: string, sourcePath: string)

  const TOMBSTONES: Path := ["memory", "tombstones.jsonl"]

  // ----- Kinds of files -----

  predicate AllDigits(s: string) {
    s != "" && forall i | 0 <= i < |s| :: '0' <= s[i] <= '9'
  }

  function LastDot(s: string): int {
    if s == "" then -1 else if s[|s| - 1] == '.' then |s| - 1 else LastDot(s[..|s| - 1])
  }

  /** `Path.suffix`: from the last dot on, unless it is the first or the last character. */
  function Suffix(name: string): string {
    var i := LastDot(name);
    if 0 < i < |name| - 1 then name[i..] else ""
  }

  function Name(p: Path): string {
    if p == [] then "" else p[|p| - 1]
  }

  function KindFor(p: Path): Kind {
    var suffix := Suffix(Name(p));
    if |p| >= 3 && AllDigits(p[0]) && AllDigits(p[1]) && suffix == ".md" then PatchLog
    else if p == [] then Unknown
    else if p[0] == "conversations" && suffix == ".jsonl" then Conversation
    else if ["memory", "promoted"] <= p && suffix == ".md" then PromotedMemory
    else if p[0] == "patch_records" && suffix in {".md", ".jsonl"} then PatchRecord
    else if p[0] == "uploads" && suffix in {".md", ".markdown", ".txt", ".json", ".jsonl", ".yaml", ".yml"} then Upload
    else if ["patch_ops", "workspaces"] <= p && suffix in {".md", ".patch", ".txt", ".json"} then Document
    else if p[0] in {"documents", "hr", "handover", "work_architecture"} && suffix in {".md", ".jsonl"} then Document
    else Unknown
  }

  lemma {:induction false} LastDotMeaning(s: string)
    ensures -1 <= LastDot(s) < |s| && (LastDot(s) >= 0 ==> s[LastDot(s)] == '.')
    ensures forall i | LastDot(s) < i < |s| :: s[i] != '.'
    decreases |s|
  {
    if s != "" { LastDotMeaning(s[..|s| - 1]); }
  }

  /** The suffix is what follows the last dot, with the dot; a name that has no other dot than its
      first character, or that ends with one, has none. */
  lemma SuffixMeaning(stem: string, ext: string)
    requires '.' !in ext
    ensures Suffix(stem + "." + ext) == if stem == "" || ext == "" then "" else "." + ext
    ensures Suffix(ext) == ""
  {
    var name := stem + "." + ext;
    LastDotMeaning(name);
    LastDotMeaning(ext);
    assert name[|stem|] == '.';
    assert forall i | |stem| < i < |name| :: name[i] == ext[i - |stem| - 1];
    assert LastDot(name) == |stem|;
    assert name[|stem|..] == "." + ext;
  }

  lemma DigitsOnly(s: string)
    ensures AllDigits(s) <==> |s| > 0 && forall c: char | c in s :: '0' <= c <= '9'
  {
    assert forall i | 0 <= i < |s| :: s[i] in s;
    if AllDigits(s) {
      forall c: char | c in s ensures '0' <= c <= '9' {
        var i :| 0 <= i < |s| && s[i] == c;
      }
    }
  }

  /** The directories that hold sources, and the suffixes that count in each. */
  lemma KindMeaning(p: Path)
    requires p != []
    ensures var suffix, dir := Suffix(p[|p| - 1]), p[0];
            && (KindFor(p) == PatchLog <==>
                  |p| >= 3 && suffix == ".md" && |dir| > 0 && |p[1]| > 0
                  && (forall c: char | c in dir :: '0' <= c <= '9') && (forall c: char | c in p[1] :: '0' <= c <= '9'))
            && (KindFor(p) == Conversation <==> dir == "conversations" && suffix == ".jsonl")
            && (KindFor(p) == PromotedMemory <==> |p| >= 2 && dir == "memory" && p[1] == "promoted" && suffix == ".md")
            && (KindFor(p) == PatchRecord <==> dir == "patch_records" && (suffix == ".md" || suffix == ".jsonl"))
            && (KindFor(p) == Upload <==>
                  dir == "uploads"
                  && (suffix == ".md" || suffix == ".markdown" || suffix == ".txt" || suffix == ".json"
                      || suffix == ".jsonl" || suffix == ".yaml" || suffix == ".yml"))
            && (KindFor(p) == Document <==>
                  || (|p| >= 2 && dir == "patch_ops" && p[1] == "workspaces"
                      && (suffix == ".md" || suffix == ".patch" || suffix == ".txt" || suffix == ".json"))
                  || ((dir == "documents" || dir == "hr" || dir == "handover" || dir == "work_architecture")
                      && (suffix == ".md" || suffix == ".jsonl")))
  {
    hide Suffix;
    assert "conversations"[0] == 'c' && "memory"[0] == 'm' && "patch_records"[0] == 'p' && "uploads"[0] == 'u';
    assert "patch_ops"[0] == 'p' && "patch_ops"[6] == 'o' && "patch_records"[6] == 'r';
    assert "documents"[0] == 'd' && "hr"[0] == 'h' && "handover"[0] == 'h' && "work_architecture"[0] == 'w';
    DigitsOnly(p[0]);
    if |p| > 1 { DigitsOnly(p[1]); }
    assert ["memory", "promoted"] <= p <==> |p| >= 2 && p[0] == "memory" && p[1] == "promoted";
    assert ["patch_ops", "workspaces"] <= p <==> |p| >= 2 && p[0] == "patch_ops" && p[1] == "workspaces";
  }

  lemma NoPathNoKind()
    ensures KindFor([]) == Unknown
  {
  }

  /** Files whose name starts with a dot, the audit log and three operational directories. */
  lemma LeftOutFiles(p: Path)
    requires p != []
    ensures Hidden(p) <==> |p[|p| - 1]| > 0 && p[|p| - 1][0] == '.'
    ensures Internal(p) <==>
      || (|p| == 1 && p[0] == "audit_log.jsonl")
      || p[0] == "token_usage" || p[0] == "context_firewall" || p[0] == "mcp_hub"
  {
  }

  predicate Internal(p: Path) {
    p == ["audit_log.jsonl"] || (p != [] && p[0] in {"token_usage", "context_firewall", "mcp_hub"})
  }

  /** The archive-relative path as text: a source's id. */
  function Posix(p: Path): string {
    Join(p, "/")
  }

  lemma PosixMeaning(p: Path, last: string)
    ensures Posix([last]) == last
    ensures p != [] ==> Posix(p + [last]) == Posix(p) + "/" + last
  {
    hide Join;
    JoinSnoc(p, last, "/");
  }

  predicate Hidden(p: Path) {
    "." <= Name(p)
  }

  // ----- Tombstones -----

  function DropSlashes(s: string): string {
    if s != "" && s[0] == '/' then DropSlashes(s[1..]) else s
  }

  /** `value.strip().lstrip("/")`. */
  function Clean(s: string): string {
    DropSlashes(Strip(s))
  }

  lemma {:induction false} DropSlashesMeaning(s: string)
    ensures |DropSlashes(s)| <= |s| && s[|s| - |DropSlashes(s)|..] == DropSlashes(s)
    ensures forall i | 0 <= i < |s| - |DropSlashes(s)| :: s[i] == '/'
    ensures DropSlashes(s) != "" ==> DropSlashes(s)[0] != '/'
    decreases |s|
  {
    if s != "" && s[0] == '/' { DropSlashesMeaning(s[1..]); }
  }

  /** Cleaning strips white space, then takes all slashes off the front and nothing else. */
  lemma CleanMeaning(s: string)
    ensures exists n: nat ::
      && n <= |Strip(s)| && Clean(s) == Strip(s)[n..] && (forall i | 0 <= i < n :: Strip(s)[i] == '/')
      && (n < |Strip(s)| ==> Strip(s)[n] != '/')
  {
    hide Strip;
    DropSlashesMeaning(Strip(s));
    assert Clean(s) == Strip(s)[|Strip(s)| - |Clean(s)|..];
  }

  lemma TombstonedMeaning(tombstones: seq<Tombstone>, id: string)
    ensures id in Tombstoned(tombstones) <==>
      |id| > 0 && exists t :: t in tombstones && (Clean(t.targetId) == id || Clean(t.sourcePath) == id)
  {
    hide Clean;
  }

  function Tombstoned(tombstones: seq<Tombstone>): set<string> {
    (set t | t in tombstones :: Clean(t.targetId)) + (set t | t in tombstones :: Clean(t.sourcePath)) - {""}
  }

  /** A file the scan lists. */
  predicate Listed(tombstones: seq<Tombstone>, f: File) {
    !Hidden(f.path) && !Internal(f.path) && !KindFor(f.path).Unknown? && Posix(f.path) !in Tombstoned(tombstones)
  }

  /** What the scan lists: visible files of a known kind, outside the operational directories,
      that no tombstone names. */
  lemma ListedMeaning(tombstones: seq<Tombstone>, f: File)
    requires f.path != []
    ensures Listed(tombstones, f) <==>
      && (|f.path[|f.path| - 1]| > 0 ==> f.path[|f.path| - 1][0] != '.')
      && f.path != ["audit_log.jsonl"]
      && f.path[0] != "token_usage" && f.path[0] != "context_firewall" && f.path[0] != "mcp_hub"
      && KindFor(f.path) != Unknown
      && forall t | t in tombstones :: Clean(t.targetId) != Posix(f.path) && Clean(t.sourcePath) != Posix(f.path)
  {
    hide Clean, Posix, Tombstoned, Suffix;
    TombstonedMeaning(tombstones, Posix(f.path));
    if Posix(f.path) == "" { NoNameNoKind(f.path); }
  }

  lemma NoNameNoKind(p: Path)
    requires Posix(p) == ""
    ensures KindFor(p).Unknown?
  {
  }

  function SourceOf(f: File): Source {
    Source(Posix(f.path), KindFor(f.path), f.title, f.excerpt, f.updatedAt)
  }

  function ScanSources(files: seq<File>, tombstones: seq<Tombstone>): seq<Source> {
    if files == [] then []
    else
      var last := files[|files| - 1];
      ScanSources(files[..|files| - 1], tombstones) + if Listed(tombstones, last) then [SourceOf(last)] else []
  }

  lemma {:induction false} ScannedIsListed(files: seq<File>, tombstones: seq<Tombstone>)
    ensures forall s :: s in ScanSources(files, tombstones) <==>
        exists f :: f in files && Listed(tombstones, f) && s == SourceOf(f)
    decreases |files|
  {
    hide Listed, SourceOf;
    if files != [] {
      ScannedIsListed(files[..|files| - 1], tombstones);
      assert files == files[..|files| - 1] + [files[|files| - 1]];
    }
  }

  /** The sources are made of the listed files, in the order of the scan. */
  lemma {:induction false} ScannedInOrder(files: seq<File>, tombstones: seq<Tombstone>) returns (kept: seq<File>)
    ensures Keeps(files, kept, (f: File) => Listed(tombstones, f))
    ensures |ScanSources(files, tombstones)| == |kept|
    ensures forall k | 0 <= k < |kept| :: var source := ScanSources(files, tombstones)[k];
                                          && source.id == Posix(kept[k].path) && source.kind == KindFor(kept[k].path)
                                          && source.title == kept[k].title && source.excerpt == kept[k].excerpt
                                          && source.updatedAt == kept[k].updatedAt
    decreases |files|
  {
    hide Listed, Posix, KindFor, Keeps;
    var keep := (f: File) => Listed(tombstones, f);
    if files == [] {
      KeepsNothing(keep);
      kept := [];
    } else {
      var front, last := files[..|files| - 1], files[|files| - 1];
      var before := ScannedInOrder(front, tombstones);
      KeepsSnoc(front, before, keep, last);
      assert files == front + [last];
      kept := before + if keep(last) then [last] else [];
    }
  }

  lemma MoreTombstonesHideMore(tombstones: seq<Tombstone>, more: seq<Tombstone>)
    requires forall t | t in tombstones :: t in more
    ensures Tombstoned(tombstones) <= Tombstoned(more)
  {
  }

  // ----- Orders and limits -----

  /** Puts a source behind all that are at least as new. */
  function InsertNewest(sorted: seq<Source>, s: Source): seq<Source> {
    if sorted == [] then [s]
    else if sorted[|sorted| - 1].updatedAt >= s.updatedAt then sorted + [s]
    else InsertNewest(sorted[..|sorted| - 1], s) + [sorted[|sorted| - 1]]
  }

  function NewestFirst(sources: seq<Source>): seq<Source> {
    if sources == [] then [] else InsertNewest(NewestFirst(sources[..|sources| - 1]), sources[|sources| - 1])
  }

  lemma {:induction false} InsertNewestMembers(sorted: seq<Source>, s: Source)
    ensures multiset(InsertNewest(sorted, s)) == multiset(sorted) + multiset{s}
    decreases |sorted|
  {
    if sorted != [] {
      InsertNewestMembers(sorted[..|sorted| - 1], s);
      assert sorted == sorted[..|sorted| - 1] + [sorted[|sorted| - 1]];
    }
  }

  lemma SameMembers(a: seq<Source>, b: seq<Source>)
    requires multiset(a) == multiset(b)
    ensures forall s :: s in a <==> s in b
  {
    forall s ensures s in a <==> s in b { assert (s in a <==> s in multiset(a)) && (s in b <==> s in multiset(b)); }
  }

  lemma {:induction false} NewestFirstMembers(sources: seq<Source>)
    ensures multiset(NewestFirst(sources)) == multiset(sources)
    ensures forall s :: s in NewestFirst(sources) <==> s in sources
    decreases |sources|
  {
    hide InsertNewest;
    if sources != [] {
      NewestFirstMembers(sources[..|sources| - 1]);
      InsertNewestMembers(NewestFirst(sources[..|sources| - 1]), sources[|sources| - 1]);
      assert sources == sources[..|sources| - 1] + [sources[|sources| - 1]];
    }
    SameMembers(NewestFirst(sources), sources);
  }

  ghost predicate Descending(sources: seq<Source>) {
    forall i, j | 0 <= i < j < |sources| :: sources[i].updatedAt >= sources[j].updatedAt
  }

  /** The sources of one moment, in list order. */
  function OfMoment(sources: seq<Source>, at: int): seq<Source> {
    if sources == [] then []
    else
      var last := sources[|sources| - 1];
      OfMoment(sources[..|sources| - 1], at) + if last.updatedAt == at then [last] else []
  }

  lemma {:induction false} OfMomentKeeps(sources: seq<Source>, at: int)
    ensures Keeps(sources, OfMoment(sources, at), (s: Source) => s.updatedAt == at)
    decreases |sources|
  {
    hide Keeps;
    var keep := (s: Source) => s.updatedAt == at;
    if sources == [] {
      KeepsNothing(keep);
    } else {
      var front, last := sources[..|sources| - 1], sources[|sources| - 1];
      OfMomentKeeps(front, at);
      KeepsSnoc(front, OfMoment(front, at), keep, last);
      assert sources == front + [last];
    }
  }

  lemma OfMomentSnoc(sources: seq<Source>, s: Source, at: int)
    ensures OfMoment(sources + [s], at) == OfMoment(sources, at) + if s.updatedAt == at then [s] else []
  {
    assert (sources + [s])[..|sources|] == sources;
  }

  lemma DescendingSnoc(front: seq<Source>, last: Source)
    ensures Descending(front + [last]) <==> Descending(front) && forall s | s in front :: s.updatedAt >= last.updatedAt
  {
    var all := front + [last];
    if Descending(all) {
      forall s | s in front ensures s.updatedAt >= last.updatedAt {
        var i :| 0 <= i < |front| && front[i] == s;
        assert all[i].updatedAt >= all[|front|].updatedAt;
      }
      forall i, j | 0 <= i < j < |front| ensures front[i].updatedAt >= front[j].updatedAt {
        assert all[i].updatedAt >= all[j].updatedAt;
      }
    }
  }

  lemma {:induction false} InsertNewestKeepsOrder(sorted: seq<Source>, s: Source)
    requires Descending(sorted)
    ensures Descending(InsertNewest(sorted, s))
    decreases |sorted|
  {
    if sorted == [] {
      assert [] + [s] == [s];
      DescendingSnoc([], s);
    } else {
      var front, last := sorted[..|sorted| - 1], sorted[|sorted| - 1];
      assert sorted == front + [last];
      DescendingSnoc(front, last);
      hide Descending;
      if last.updatedAt >= s.updatedAt {
        DescendingSnoc(sorted, s);
      } else {
        InsertNewestKeepsOrder(front, s);
        InsertNewestMembers(front, s);
        SameMembers(InsertNewest(front, s), front + [s]);
        DescendingSnoc(InsertNewest(front, s), last);
      }
    }
  }

  lemma {:induction false} InsertNewestIsStable(sorted: seq<Source>, s: Source, at: int)
    ensures OfMoment(InsertNewest(sorted, s), at) == OfMoment(sorted, at) + if s.updatedAt == at then [s] else []
    decreases |sorted|
  {
    hide OfMoment;
    OfMomentSnoc(sorted, s, at);
    if sorted == [] {
      assert [] + [s] == [s];
    } else if sorted[|sorted| - 1].updatedAt < s.updatedAt {
      var front, last := sorted[..|sorted| - 1], sorted[|sorted| - 1];
      assert sorted == front + [last];
      InsertNewestIsStable(front, s, at);
      OfMomentSnoc(front, last, at);
      OfMomentSnoc(InsertNewest(front, s), last, at);
    }
  }

  /** Newest first is a stable sort: newer sources lead, and those of one moment keep their order. */
  lemma {:induction false} NewestFirstOrder(sources: seq<Source>, at: int)
    ensures Descending(NewestFirst(sources))
    ensures OfMoment(NewestFirst(sources), at) == OfMoment(sources, at)
    decreases |sources|
  {
    hide InsertNewest, OfMoment;
    if sources != [] {
      var front, last := sources[..|sources| - 1], sources[|sources| - 1];
      assert sources == front + [last];
      NewestFirstOrder(front, at);
      InsertNewestKeepsOrder(NewestFirst(front), last);
      InsertNewestIsStable(NewestFirst(front), last, at);
      OfMomentSnoc(front, last, at);
    }
  }

  /** `sources[:limit]`. */
  function Upto(sources: seq<Source>, limit: int): (r: seq<Source>)
    ensures forall s | s in r :: s in sources
    ensures r <= sources
    ensures |r| == if limit < 0 then (if |sources| < -limit then 0 else |sources| + limit)
                   else if limit < |sources| then limit else |sources|
  {
    if limit >= 0 then (if limit <= |sources| then sources[..limit] else sources)
    else if -limit <= |sources| then sources[..|sources| + limit] else []
  }

  function Matching(sources: seq<Source>, matches: Source -> bool): (r: seq<Source>)
    ensures forall s :: s in r <==> s in sources && matches(s)
  {
    if sources == [] then []
    else
      var last := sources[|sources| - 1];
      assert sources == sources[..|sources| - 1] + [last];
      Matching(sources[..|sources| - 1], matches) + if matches(last) then [last] else []
  }

  lemma {:induction false} MatchingKeeps(sources: seq<Source>, matches: Source -> bool)
    ensures Keeps(sources, Matching(sources, matches), matches)
    decreases |sources|
  {
    hide Keeps;
    if sources == [] {
      KeepsNothing(matches);
    } else {
      var front, last := sources[..|sources| - 1], sources[|sources| - 1];
      MatchingKeeps(front, matches);
      KeepsSnoc(front, Matching(front, matches), matches, last);
      assert sources == front + [last];
    }
  }

  // ----- Resolving requested ids -----

  function FindSource(sources: seq<Source>, id: string): Option<Source> {
    if sources == [] then None
    else if sources[|sources| - 1].id == id then Some(sources[|sources| - 1])
    else FindSource(sources[..|sources| - 1], id)
  }

  lemma {:induction false} FoundSource(sources: seq<Source>, id: string)
    ensures FindSource(sources, id).Some? <==> exists s :: s in sources && s.id == id
    ensures FindSource(sources, id).Some? ==>
        FindSource(sources, id).value in sources && FindSource(sources, id).value.id == id
    ensures forall k | 0 <= k < |sources| && sources[k].id == id
        && (forall j | k < j < |sources| :: sources[j].id != id) ::
      FindSource(sources, id) == Some(sources[k])
    decreases |sources|
  {
    if sources != [] {
      FoundSource(sources[..|sources| - 1], id);
      assert sources == sources[..|sources| - 1] + [sources[|sources| - 1]];
    }
  }

  /** The ids that resolve, stripped, each once, in request order. */
  function Resolvable(sources: seq<Source>, ids: seq<string>): seq<string> {
    if ids == [] then []
    else
      var before, id := Resolvable(sources, ids[..|ids| - 1]), Strip(ids[|ids| - 1]);
      if id == "" || id in before || FindSource(sources, id).None? then before else before + [id]
  }

  lemma {:induction false} ResolvableMeaning(sources: seq<Source>, ids: seq<string>)
    ensures var r := Resolvable(sources, ids);
            && (forall i, j | 0 <= i < j < |r| :: r[i] != r[j])
            && (forall id :: id in r <==>
                id != "" && FindSource(sources, id).Some? && exists k | 0 <= k < |ids| :: Strip(ids[k]) == id)
            && (ids != [] ==> Resolvable(sources, ids[..|ids| - 1]) <= r)
    decreases |ids|
  {
    hide Strip, FindSource;
    if ids != [] {
      var front := ids[..|ids| - 1];
      ResolvableMeaning(sources, front);
      forall id ensures id in Resolvable(sources, ids) <==>
        id != "" && FindSource(sources, id).Some? && exists k | 0 <= k < |ids| :: Strip(ids[k]) == id
      {
        if exists k | 0 <= k < |ids| :: Strip(ids[k]) == id {
          var k :| 0 <= k < |ids| && Strip(ids[k]) == id;
          assert k < |front| ==> front[k] == ids[k];
        }
        if exists k | 0 <= k < |front| :: Strip(front[k]) == id {
          var k :| 0 <= k < |front| && Strip(front[k]) == id;
          assert ids[k] == front[k];
        }
        assert Strip(ids[|ids| - 1]) == id ==> exists k | 0 <= k < |ids| :: Strip(ids[k]) == id;
      }
    }
  }

  function Cap(limit: int): nat {
    var capped := if limit < 50 then limit else 50;
    if capped > 1 then capped else 1
  }

  lemma CapMeaning(limit: int)
    ensures limit <= 1 ==> Cap(limit) == 1
    ensures 1 <= limit <= 50 ==> Cap(limit) == limit
    ensures limit >= 50 ==> Cap(limit) == 50
  {
  }

  // ----- Deleting a file -----

  /** What `resolve` makes of path components: "." and empty ones vanish, ".." takes one back. */
  function Normalized(parts: seq<string>): Path {
    if parts == [] then []
    else
      var before, last := Normalized(parts[..|parts| - 1]), parts[|parts| - 1];
      if last == "" || last == "." then before
      else if last == ".." then (if before == [] then [] else before[..|before| - 1])
      else before + [last]
  }

  /** The path below the archive that a source id names, if it stays below it. */
  function ResolvePath(root: Path, sourceId: string): Option<Path> {
    var cleaned := Clean(sourceId);
    if cleaned == "" || '\0' in cleaned then None
    else
      var full := Normalized(root + Split(cleaned, '/'));
      if root <= full then Some(full[|root|..]) else None
  }

  /** What one more component does; two dots undo the component before them. */
  lemma NormalizedNext(parts: seq<string>, part: string, next: string)
    requires |part| > 0 && part != "." && part != ".."
    ensures Normalized([]) == []
    ensures Normalized(parts + [part]) == Normalized(parts) + [part]
    ensures next == "" || next == "." ==> Normalized(parts + [next]) == Normalized(parts)
    ensures next == ".." ==> Normalized(parts + [part] + [next]) == Normalized(parts)
    ensures next == ".." ==>
        |Normalized(parts + [next])| == (if Normalized(parts) == [] then 0 else |Normalized(parts)| - 1)
                             && Normalized(parts + [next]) <= Normalized(parts)
  {
    assert (parts + [part])[..|parts|] == parts && (parts + [next])[..|parts|] == parts;
    assert (parts + [part] + [next])[..|parts| + 1] == parts + [part];
    assert next == ".." ==> |next| == 2 && next[0] == '.';
  }

  /** An id names what lies behind the archive's own path, and nothing if it is blank, holds a
      null character or leads out of the archive. */
  lemma ResolvePathMeaning(root: Path, sourceId: string, p: Path)
    ensures ResolvePath(root, sourceId) == Some(p) <==>
      |Clean(sourceId)| > 0 && '\0' !in Clean(sourceId) && Normalized(root + Split(Clean(sourceId), '/')) == root + p
  {
    hide Clean, Normalized, Split;
    var full := Normalized(root + Split(Clean(sourceId), '/'));
    assert root <= full ==> full == root + full[|root|..];
    assert full == root + p ==> full[|root|..] == p;
  }

  lemma TombstonesAreNoSource()
    ensures KindFor(TOMBSTONES).Unknown?
  {
    assert TOMBSTONES[0] == "memory" && TOMBSTONES[1] == "tombstones.jsonl";
    assert !AllDigits("memory") by { assert "memory"[0] == 'm'; }
    assert !(["memory", "promoted"] <= TOMBSTONES) by { assert "promoted"[0] != TOMBSTONES[1][0]; }
    assert !(["patch_ops", "workspaces"] <= TOMBSTONES) by { assert "patch_ops"[0] != TOMBSTONES[0][0]; }
    assert "memory"[0] == 'm' && "conversations"[0] == 'c' && "patch_records"[0] == 'p' && "uploads"[0] == 'u';
    assert "documents"[0] == 'd' && "hr"[0] == 'h' && "handover"[0] == 'h' && "work_architecture"[0] == 'w';
  }
}
