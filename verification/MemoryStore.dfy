/** The archive with its deletion workflow as one store. */
module MemoryStore {
  import opened Text
  import opened PythonText
  import opened Sublists
  import opened Wrappers
  import opened PermanentMemory

  function HasPath(files: seq<File>, p: Path): bool {
    exists f | f in files :: f.path == p
  }

  function WithoutPath(files: seq<File>, p: Path): (r: seq<File>)
    ensures forall f :: f in r <==> f in files && f.path != p
  {
    if files == [] then []
    else
      var last := files[|files| - 1];
      assert files == files[..|files| - 1] + [last];
      WithoutPath(files[..|files| - 1], p) + if last.path != p then [last] else []
  }

  lemma {:induction false} WithoutPathKeeps(files: seq<File>, p: Path)
    ensures Keeps(files, WithoutPath(files, p), (f: File) => f.path != p)
    decreases |files|
  {
    hide Keeps;
    var keep := (f: File) => f.path != p;
    if files == [] {
      KeepsNothing(keep);
    } else {
      var front, last := files[..|files| - 1], files[|files| - 1];
      WithoutPathKeeps(front, p);
      KeepsSnoc(front, WithoutPath(front, p), keep, last);
      assert files == front + [last];
    }
  }

  function Decided(requests: seq<Request>, id: string, status: Status, actor: string): seq<Request> {
    seq(|requests|, i requires 0 <= i < |requests| =>
      if requests[i].id == id then requests[i].(status := status, decidedBy := actor) else requests[i])
  }

  function FindRequest(requests: seq<Request>, id: string): Option<Request> {
    if requests == [] then None else if requests[0].id == id then Some(requests[0]) else FindRequest(requests[1..], id)
  }

  lemma {:induction false} FindRequestMeaning(requests: seq<Request>, id: string)
    ensures FindRequest(requests, id).Some? <==> exists q :: q in requests && q.id == id
    ensures FindRequest(requests, id).Some? ==> exists k | 0 <= k < |requests| ::
      requests[k].id == id && (forall j | 0 <= j < k :: requests[j].id != id)
          && FindRequest(requests, id).value == requests[k]
    decreases |requests|
  {
    if requests != [] && requests[0].id != id {
      FindRequestMeaning(requests[1..], id);
      assert requests == [requests[0]] + requests[1..];
      if FindRequest(requests, id).Some? {
        var rest := requests[1..];
        var k :| 0 <= k < |rest| && rest[k].id == id && (forall j | 0 <= j < k :: rest[j].id != id)
          && FindRequest(rest, id).value == rest[k];
        assert requests[k + 1] == rest[k] && forall j | 1 <= j < k + 1 :: requests[j] == rest[j - 1];
      }
    }
  }

  /** The source ids an approval of this request hides. */
  function Names(r: Request): set<string> {
    {Clean(r.targetId), Clean(r.sourcePath)} - {""}
  }

  lemma TombstoneAdds(tombstones: seq<Tombstone>, r: Request)
    ensures Tombstoned(tombstones + [Tombstone(r.targetId, r.sourcePath)]) == Tombstoned(tombstones) + Names(r)
  {
    hide Clean;
    var all := tombstones + [Tombstone(r.targetId, r.sourcePath)];
    assert forall t :: t in all <==> t in tombstones || t == Tombstone(r.targetId, r.sourcePath);
  }

  /** No source in this list is one of these ids. */
  ghost predicate Avoids(sources: seq<Source>, ids: set<string>) {
    forall s | s in sources :: s.id !in ids
  }

  lemma ScanAvoids(files: seq<File>, tombstones: seq<Tombstone>)
    ensures Avoids(ScanSources(files, tombstones), Tombstoned(tombstones))
  {
    hide KindFor, Tombstoned, Hidden, Internal;
    ScannedIsListed(files, tombstones);
  }

  predicate InvalidId(sourceId: string) {
    Clean(sourceId) == "" || '\0' in Clean(sourceId)
  }

  /** Why an id is refused: the first of the four reasons that applies. */
  ghost function Refusal(root: Path, files: seq<File>, sourceId: string): string {
    if |Clean(sourceId)| == 0 || '\0' in Clean(sourceId)
    then "invalid source id"
    else if ResolvePath(root, sourceId).None? then "source path escapes archive"
    else if forall f | f in files :: f.path != ResolvePath(root, sourceId).value then Clean(sourceId)
    else "unsupported source kind"
  }

  class MemoryStore {
    /** The components of the archive's own path. */
    const root: Path
    var files: seq<File>
    var requests: seq<Request>
    var tombstones: seq<Tombstone>
    /** Every id that an approved request has ever named. */
    ghost var approved: set<string>

    ghost predicate Valid()
      reads this
    {
      approved <= Tombstoned(tombstones)
    }

    constructor (root: Path, files: seq<File>)
      ensures Valid() && this.root == root && this.files == files && requests == [] && tombstones == []
          && approved == {}
    {
      this.root, this.files, requests, tombstones, approved := root, files, [], [], {};
    }

    method Create(request: Request)
      requires Valid()
      modifies this`requests
      ensures Valid() && requests == old(requests) + [request]
    {
      requests := requests + [request];
    }

    /** Decides a request, decided before or not. An approval adds a tombstone for what it names;
        no decision ever takes one away. */
    method Decide(requestId: string, actor: string, approve: bool) returns (r: Result<Request>)
      requires Valid()
      modifies this`requests, this`tombstones, this`approved
      ensures Valid() && old(approved) <= approved && old(tombstones) <= tombstones
      ensures r.Ok? <==> exists q :: q in old(requests) && q.id == requestId
      ensures r.Err? ==> r.message == "deletion request not found"
      ensures r.Ok? ==> exists k | 0 <= k < |old(requests)| ::
        && old(requests)[k].id == requestId && (forall j | 0 <= j < k :: old(requests)[j].id != requestId)
        && r.value == old(requests)[k].(status := if approve then Approved else Rejected, decidedBy := actor)
      ensures |requests| == |old(requests)|
      ensures forall k | 0 <= k < |requests| ::
        requests[k] == if r.Ok? && old(requests)[k].id == requestId
                       then old(requests)[k].(status := if approve then Approved else Rejected, decidedBy := actor)
                       else old(requests)[k]
      ensures approved == if r.Ok? && approve then old(approved) + Names(r.value) else old(approved)
      ensures tombstones == old(tombstones)
          + if r.Ok? && approve then [Tombstone(r.value.targetId, r.value.sourcePath)] else []
    {
      hide Tombstoned, Names, FindRequest;
      FindRequestMeaning(requests, requestId);
      var target := FindRequest(requests, requestId);
      if target.None? { return Err("deletion request not found"); }
      var status := if approve then Approved else Rejected;
      var decided := target.value.(status := status, decidedBy := actor);
      requests := Decided(requests, requestId, status, actor);
      if approve {
        TombstoneAdds(tombstones, decided);
        tombstones := tombstones + [Tombstone(decided.targetId, decided.sourcePath)];
        approved := approved + Names(decided);
      }
      r := Ok(decided);
    }

    /** Writes a promoted memory, over an older file of the same name if there is one. */
    method Promote(fileName: string, title: string, excerpt: string, now: int)
      requires Valid()
      modifies this`files
      ensures Valid()
      ensures Replaces(old(files), files, (f: File) => f.path != ["memory", "promoted", fileName],
                       File(["memory", "promoted", fileName], title, excerpt, now))
    {
      var p := ["memory", "promoted", fileName];
      WithoutPathKeeps(files, p);
      AppendReplaces(files, WithoutPath(files, p), (f: File) => f.path != p, File(p, title, excerpt, now));
      files := WithoutPath(files, p) + [File(p, title, excerpt, now)];
    }

    /** Removes one file of a known kind. Removing the tombstone file would forget every
        tombstone; its kind is unknown, so no source id reaches it. */
    method DeleteSource(sourceId: string) returns (r: Result<Path>)
      requires Valid()
      modifies this`files, this`tombstones
      ensures Valid() && tombstones == old(tombstones)
      ensures var p := ResolvePath(root, sourceId);
              r.Ok? <==> p.Some? && (exists f :: f in old(files) && f.path == p.value) && !KindFor(p.value).Unknown?
      ensures r.Err? ==> files == old(files)
      ensures r.Ok? ==> Keeps(old(files), files, (f: File) => f.path != r.value)
      ensures r.Err? ==> r.message == Refusal(root, old(files), sourceId)
      ensures r.Ok? ==> ResolvePath(root, sourceId) == Some(r.value) && r.value != TOMBSTONES
    {
      hide KindFor, ResolvePath, Tombstoned;
      TombstonesAreNoSource();
      var p := ResolvePath(root, sourceId);
      if p.None? {
        return Err(if InvalidId(sourceId) then "invalid source id" else "source path escapes archive");
      }
      ResolvePathMeaning(root, sourceId, p.value);
      if !HasPath(files, p.value) { return Err(Clean(sourceId)); }
      if KindFor(p.value).Unknown? { return Err("unsupported source kind"); }
      WithoutPathKeeps(files, p.value);
      Unlink(p.value);
      r := Ok(p.value);
    }

    /** Removing a file; were it the tombstone file, every tombstone would be gone. */
    method Unlink(p: Path)
      modifies this`files, this`tombstones
      ensures files == WithoutPath(old(files), p)
      ensures tombstones == if p == TOMBSTONES then [] else old(tombstones)
    {
      files := WithoutPath(files, p);
      tombstones := if p == TOMBSTONES then [] else tombstones;
    }

    method Recent(limit: int) returns (sources: seq<Source>)
      requires Valid()
      ensures sources == Upto(NewestFirst(ScanSources(files, tombstones)), limit)
      ensures forall s | s in sources :: s.id !in approved
    {
      hide Tombstoned, NewestFirst, ScanSources;
      ScanAvoids(files, tombstones);
      NewestFirstMembers(ScanSources(files, tombstones));
      sources := Upto(NewestFirst(ScanSources(files, tombstones)), limit);
    }

    /** `matches` says that every token of a non-blank query occurs; a blank query matches all. */
    method Search(matches: Source -> bool, limit: int) returns (sources: seq<Source>)
      requires Valid()
      ensures sources == Upto(NewestFirst(Matching(ScanSources(files, tombstones), matches)), limit)
      ensures forall s | s in sources :: s.id !in approved && matches(s)
    {
      hide Tombstoned, NewestFirst, ScanSources, Matching;
      ScanAvoids(files, tombstones);
      NewestFirstMembers(Matching(ScanSources(files, tombstones), matches));
      sources := Upto(NewestFirst(Matching(ScanSources(files, tombstones), matches)), limit);
    }

    /** Explicit ids come back in request order, each once, at most 1 to 50 of them. */
    method ResolveSources(matches: Source -> bool, limit: int, ids: seq<string>) returns (sources: seq<Source>)
      requires Valid()
      ensures forall s | s in sources :: s.id !in approved
      ensures |sources| <= if limit < 1 then 1 else if limit > 50 then 50 else limit
      ensures ids == [] ==> sources == Upto(NewestFirst(Matching(ScanSources(files, tombstones), matches)), Cap(limit))
      ensures ids != [] ==>
        var all := Resolvable(ScanSources(files, tombstones), ids);
        |sources| == (if |all| < Cap(limit) then |all| else Cap(limit))
            && forall k | 0 <= k < |sources| :: sources[k].id == all[k]
      ensures ids != [] ==> forall s | s in sources :: s in ScanSources(files, tombstones)
    {
      hide Tombstoned, ScanSources, FindSource, Strip, NewestFirst, Matching;
      var cap := Cap(limit);
      CapMeaning(limit);
      if |ids| == 0 {
        sources := Search(matches, cap);
        return;
      }
      var all := ScanSources(files, tombstones);
      ScanAvoids(files, tombstones);
      sources := [];
      var seen: set<string> := {};
      for n := 0 to |ids|
        invariant |sources| == |Resolvable(all, ids[..n])| < cap
        invariant forall k | 0 <= k < |sources| :: sources[k].id == Resolvable(all, ids[..n])[k] && sources[k] in all
        invariant forall id :: id in seen <==> id in Resolvable(all, ids[..n])
      {
        assert ids[..n + 1][..n] == ids[..n];
        var id := Strip(ids[n]);
        if id == "" || id in seen { continue; }
        var found := FindSource(all, id);
        if found.Some? {
          FoundSource(all, id);
          sources := sources + [found.value];
          seen := seen + {id};
        }
        if |sources| >= cap {
          ResolvablePrefix(all, ids, n + 1);
          return;
        }
      }
      assert ids[..|ids|] == ids;
    }

    /** Reading one source by id asks for no tombstone: approval hides a source from the lists
        and searches, not from this call. */
    method ReadSource(sourceId: string) returns (r: Result<File>)
      ensures var p := ResolvePath(root, sourceId);
              r.Ok? <==> p.Some? && (exists f :: f in files && f.path == p.value) && !KindFor(p.value).Unknown?
      ensures r.Err? ==> r.message == Refusal(root, files, sourceId)
      ensures r.Ok? ==> r.value in files && ResolvePath(root, sourceId) == Some(r.value.path)
    {
      hide KindFor, ResolvePath;
      var p := ResolvePath(root, sourceId);
      if p.None? {
        return Err(if InvalidId(sourceId) then "invalid source id" else "source path escapes archive");
      }
      ResolvePathMeaning(root, sourceId, p.value);
      if !HasPath(files, p.value) { return Err(Clean(sourceId)); }
      if KindFor(p.value).Unknown? { return Err("unsupported source kind"); }
      var n := 0;
      while files[n].path != p.value
        invariant n < |files| && forall k | 0 <= k < n :: files[k].path != p.value
        decreases |files| - n
      {
        n := n + 1;
      }
      r := Ok(files[n]);
    }
  }

  lemma {:induction false} ResolvablePrefix(all: seq<Source>, ids: seq<string>, n: nat)
    requires n <= |ids|
    ensures Resolvable(all, ids[..n]) <= Resolvable(all, ids)
    decreases |ids|
  {
    hide Strip, FindSource;
    if n < |ids| {
      assert ids[..|ids| - 1][..n] == ids[..n];
      ResolvablePrefix(all, ids[..|ids| - 1], n);
    } else {
      assert ids[..n] == ids;
    }
  }

  /** Once a request naming a source is approved, no list of sources contains it again,
      whatever files and tombstones are added later. */
  lemma ApprovedStaysHidden(files: seq<File>, tombstones: seq<Tombstone>, r: Request, later: seq<Tombstone>, s: Source)
    requires Tombstone(r.targetId, r.sourcePath) in tombstones && forall t | t in tombstones :: t in later
    requires s in ScanSources(files, later)
    ensures s.id !in Names(r)
  {
    hide Clean;
    ScanAvoids(files, later);
    MoreTombstonesHideMore(tombstones, later);
  }

  // ----- Which approvals hide the file they resolve to -----

  /** A component that `resolve` leaves as it is. */
  predicate PlainPart(part: string) {
    part != "" && part != "." && part != ".." && '/' !in part
  }

  lemma {:induction false} NormalizedParts(parts: seq<string>)
    requires forall p | p in parts :: '/' !in p
    ensures forall p | p in Normalized(parts) :: PlainPart(p)
    ensures (forall p | p in parts :: PlainPart(p)) ==> Normalized(parts) == parts
    decreases |parts|
  {
    if parts != [] {
      var front, last := parts[..|parts| - 1], parts[|parts| - 1];
      assert parts == front + [last];
      assert last in parts && forall p | p in front :: p in parts;
      NormalizedParts(front);
    }
  }

  /** An id that resolves to a file is that file's own id exactly when none of its components is
      empty, "." or "..". */
  lemma ResolvedIsNamed(root: Path, sourceId: string, p: Path)
    requires (forall part | part in root :: PlainPart(part)) && ResolvePath(root, sourceId) == Some(p)
    ensures Clean(sourceId) == Posix(p) <==> forall part | part in Split(Clean(sourceId), '/') :: PlainPart(part)
  {
    hide Clean, Split, Join, Normalized, PlainPart;
    var cleaned := Clean(sourceId);
    var parts := Split(cleaned, '/');
    JoinSplit(cleaned, '/');
    assert forall part | part in root :: '/' !in part by { PlainHasNoSlash(root); }
    NormalizedParts(root + parts);
    var full := Normalized(root + parts);
    assert full == root + p;
    if forall part | part in parts :: PlainPart(part) {
      assert p == parts by { assert full[|root|..] == p && (root + parts)[|root|..] == parts; }
    }
    if cleaned == Posix(p) {
      assert p != [] by { NothingJoined(); }
      assert forall part | part in p :: part in full;
      PlainHasNoSlash(p);
      SplitJoin(p, '/');
    }
  }

  lemma PlainHasNoSlash(parts: seq<string>)
    requires forall part | part in parts :: PlainPart(part)
    ensures forall part | part in parts :: '/' !in part
  {
  }

  lemma NothingJoined()
    ensures Posix([]) == ""
  {
  }

  /** Approving a request whose target resolves to a listed source hides that source exactly when
      the target spells the path out plainly, or the request's source path names it. */
  lemma ApprovalHidesTarget(root: Path, tombstones: seq<Tombstone>, r: Request, f: File)
    requires forall part | part in root :: PlainPart(part)
    requires ResolvePath(root, r.targetId) == Some(f.path) && Listed(tombstones, f)
    ensures !Listed(tombstones + [Tombstone(r.targetId, r.sourcePath)], f) <==>
      || (forall part | part in Split(Clean(r.targetId), '/') :: PlainPart(part))
      || Clean(r.sourcePath) == Posix(f.path)
  {
    hide Clean, Split, Normalized, PlainPart, KindFor, Hidden, Internal;
    ResolvedIsNamed(root, r.targetId, f.path);
    TombstoneAdds(tombstones, r);
    assert Clean(r.targetId) != "";
    assert Posix(f.path) != "" by {
      if Posix(f.path) == "" { NoNameNoKind(f.path); }
    }
  }
}
