/** The index manager: three index files updated together, and queries over them. */
module IndexManager {
  import opened PythonText
  import opened Sublists
  import opened MarkdownIndex
  import opened IndexHistory

  datatype IndexFile = ByKeyword | ByModule | ByAuthor

  function FileName(file: IndexFile): string {
    match file
    case ByKeyword => "by_keyword.md"
    case ByModule => "by_module.md"
    case ByAuthor => "by_author.md"
  }

  /** One `update` call; `path` is the log path relative to the archive. */
  datatype LogEntry = LogEntry(path: string, keywords: seq<string>, modules: seq<string>, author: string)

  function KeysFor(file: IndexFile, e: LogEntry): seq<string> {
    match file
    case ByKeyword => e.keywords
    case ByModule => e.modules
    case ByAuthor => [e.author]
  }

  function Filings(file: IndexFile, log: seq<LogEntry>): seq<Filing> {
    seq(|log|, i requires 0 <= i < |log| => Filing(KeysFor(file, log[i]), log[i].path))
  }

  lemma RunAppends(file: IndexFile, log: seq<LogEntry>, e: LogEntry)
    ensures Run(FileName(file), Filings(file, log + [e]))
      == AppendText(Run(FileName(file), Filings(file, log)), Filing(KeysFor(file, e), e.path), FileName(file))
  {
    hide AppendText;
    assert Filings(file, log + [e])[..|log|] == Filings(file, log);
  }

  lemma NamesAreOneLine(file: IndexFile)
    ensures OneLine(FileName(file))
  {
  }

  /** An update was given a keyword, module or author that, stripped and in lower case, is this key. */
  ghost predicate Under(e: LogEntry, file: IndexFile, key: string) {
    match file
    case ByKeyword => exists x :: x in e.keywords && Strip(x) != "" && Lower(Strip(x)) == key
    case ByModule => exists x :: x in e.modules && Strip(x) != "" && Lower(Strip(x)) == key
    case ByAuthor => Strip(e.author) != "" && Lower(Strip(e.author)) == key
  }

  /** What this file files of the update can be read back. */
  ghost predicate Answerable(e: LogEntry, file: IndexFile) {
    forall k | Under(e, file, k) :: ':' !in k && OneLine(k) && GoodItem(e.path)
  }

  /** Update n filed the path under the key. */
  ghost predicate FiledAt(log: seq<LogEntry>, n: nat, file: IndexFile, key: string, path: string) {
    n < |log| && Under(log[n], file, key) && log[n].path == path
  }

  /** The first path was filed before the second was. */
  ghost predicate FiledFirst(log: seq<LogEntry>, file: IndexFile, key: string, v: string, w: string) {
    exists m: nat :: FiledAt(log, m, file, key, v) && forall n: nat | n <= m :: !FiledAt(log, n, file, key, w)
  }

  /** The paths that the log files under a key: each once, in the order of first filing. */
  ghost predicate Answers(paths: seq<string>, log: seq<LogEntry>, file: IndexFile, key: string) {
    && (forall v :: v in paths <==> exists n: nat :: FiledAt(log, n, file, key, v))
    && (forall i, j | 0 <= i < j < |paths| :: paths[i] != paths[j])
    && (forall i, j | 0 <= i < j < |paths| :: FiledFirst(log, file, key, paths[i], paths[j]))
  }

  /** There is only one such list. */
  lemma AnswersOnlyOne(a: seq<string>, b: seq<string>, log: seq<LogEntry>, file: IndexFile, key: string)
    requires Answers(a, log, file, key) && Answers(b, log, file, key)
    ensures a == b
  {
    var first := (v: string, w: string) => FiledFirst(log, file, key, v, w);
    InTurnOnlyOne(a, b, first);
  }

  lemma UnderIsNormal(e: LogEntry, file: IndexFile, k: string)
    ensures k in NormalKeys(KeysFor(file, e)) <==> Under(e, file, k)
  {
    hide Strip, Lower, NormalKeys;
    NormalKeysMeaning(KeysFor(file, e), k);
    if file.ByAuthor? { assert KeysFor(file, e)[0] == e.author; }
  }

  lemma AnswerableIsReadable(e: LogEntry, file: IndexFile)
    ensures Answerable(e, file) <==> Readable(Filing(KeysFor(file, e), e.path))
  {
    hide NormalKeys, Under, GoodItem, OneLine;
    var keys := NormalKeys(KeysFor(file, e));
    forall k ensures k in keys <==> Under(e, file, k) { UnderIsNormal(e, file, k); }
    assert keys != [] ==> keys[0] in keys;
  }

  lemma FiledAtNext(log: seq<LogEntry>, e: LogEntry, file: IndexFile, key: string)
    ensures forall n: nat, v :: FiledAt(log + [e], n, file, key, v) <==>
      FiledAt(log, n, file, key, v) || (n == |log| && Under(e, file, key) && e.path == v)
    ensures forall n: nat, v | FiledAt(log, n, file, key, v) :: n < |log|
  {
    hide Under;
  }

  lemma AnswersNext(paths: seq<string>, log: seq<LogEntry>, e: LogEntry, file: IndexFile, key: string)
    requires Answers(paths, log, file, key)
    ensures Answers(if Under(e, file, key) then AddValue(paths, e.path) else paths, log + [e], file, key)
  {
    hide Under, FiledAt, FiledFirst;
    var all, next := log + [e], if Under(e, file, key) then AddValue(paths, e.path) else paths;
    forall v ensures v in next <==> exists n: nat :: FiledAt(all, n, file, key, v) {
      MembersNext(paths, log, e, file, key, v);
    }
    forall i, j | 0 <= i < j < |next| ensures next[i] != next[j] {
      assert j < |paths| ==> next[i] == paths[i] && next[j] == paths[j];
      assert paths[i] in paths;
    }
    forall i, j | 0 <= i < j < |next| ensures FiledFirst(all, file, key, next[i], next[j]) {
      EarlierStays(paths, log, e, file, key, i, j);
    }
  }

  lemma MembersNext(paths: seq<string>, log: seq<LogEntry>, e: LogEntry, file: IndexFile, key: string, v: string)
    requires v in paths <==> exists n: nat :: FiledAt(log, n, file, key, v)
    ensures var next := if Under(e, file, key) then AddValue(paths, e.path) else paths;
            v in next <==> exists n: nat :: FiledAt(log + [e], n, file, key, v)
  {
    hide Under, FiledAt;
    var all, next := log + [e], if Under(e, file, key) then AddValue(paths, e.path) else paths;
    FiledAtNext(log, e, file, key);
    assert v in next <==> v in paths || (Under(e, file, key) && v == e.path);
    if v in paths {
      var n: nat :| FiledAt(log, n, file, key, v);
      assert FiledAt(all, n, file, key, v);
    }
    if Under(e, file, key) && v == e.path { assert FiledAt(all, |log|, file, key, v); }
    if exists n: nat :: FiledAt(all, n, file, key, v) {
      var n: nat :| FiledAt(all, n, file, key, v);
      assert FiledAt(log, n, file, key, v) || (n == |log| && Under(e, file, key) && e.path == v);
    }
  }

  lemma EarlierStays(paths: seq<string>, log: seq<LogEntry>, e: LogEntry, file: IndexFile, key: string, i: nat, j: nat)
    requires Answers(paths, log, file, key)
    requires var next := if Under(e, file, key) then AddValue(paths, e.path) else paths; i < j < |next|
    ensures var all, next := log + [e], if Under(e, file, key) then AddValue(paths, e.path) else paths;
            FiledFirst(all, file, key, next[i], next[j])
  {
    hide Under, FiledAt;
    var all, next := log + [e], if Under(e, file, key) then AddValue(paths, e.path) else paths;
    FiledAtNext(log, e, file, key);
    if j < |paths| {
      assert next[i] == paths[i] && next[j] == paths[j];
      assert FiledFirst(log, file, key, paths[i], paths[j]);
      var m: nat :| FiledAt(log, m, file, key, paths[i])
          && forall n: nat | n <= m :: !FiledAt(log, n, file, key, paths[j]);
      assert FiledAt(all, m, file, key, paths[i]);
      forall n: nat | n <= m ensures !FiledAt(all, n, file, key, paths[j]) {
        assert m < |log|;
      }
    } else {
      assert next[i] == paths[i] && next[j] == e.path && e.path !in paths;
      assert paths[i] in paths;
      var m: nat :| FiledAt(log, m, file, key, paths[i]);
      assert FiledAt(all, m, file, key, paths[i]);
      forall n: nat | n <= m ensures !FiledAt(all, n, file, key, e.path) {
        assert !FiledAt(log, n, file, key, e.path);
      }
    }
  }

  /** What the history files under a key is what the log says. */
  lemma {:induction false} FiledIsAnswer(file: IndexFile, log: seq<LogEntry>, key: string)
    ensures Answers(Filed(Filings(file, log), key), log, file, key)
    decreases |log|
  {
    hide NormalKeys, Answers, Under, KeysFor, AddValue;
    if log == [] {
      NothingLogged(file, key);
    } else {
      var front, e := log[..|log| - 1], log[|log| - 1];
      FiledIsAnswer(file, front, key);
      assert log == front + [e];
      assert Filings(file, log)[..|front|] == Filings(file, front);
      UnderIsNormal(e, file, key);
      AnswersNext(Filed(Filings(file, front), key), front, e, file, key);
    }
  }

  lemma NothingLogged(file: IndexFile, key: string)
    ensures Answers(Filed(Filings(file, []), key), [], file, key)
  {
  }

  /** Each fresh file holds its own name as the title. */
  lemma FreshTexts()
    ensures Fresh(FileName(ByKeyword)) == "# by_keyword.md\n"
    ensures Fresh(FileName(ByModule)) == "# by_module.md\n"
    ensures Fresh(FileName(ByAuthor)) == "# by_author.md\n"
  {
  }

  lemma FreshRun(file: IndexFile)
    ensures Run(FileName(file), Filings(file, [])) == Fresh(FileName(file))
  {
  }

  class IndexManager {
    var byKeyword: string
    var byModule: string
    var byAuthor: string
    ghost var log: seq<LogEntry>

    function Content(file: IndexFile): string
      reads this
    {
      match file
      case ByKeyword => byKeyword
      case ByModule => byModule
      case ByAuthor => byAuthor
    }

    /** Each file is what the whole history of updates made of it. */
    ghost predicate Valid()
      reads this
    {
      forall file: IndexFile :: Content(file) == Run(FileName(file), Filings(file, log))
    }

    constructor ()
      ensures Valid() && log == []
      ensures byKeyword == "# by_keyword.md\n" && byModule == "# by_module.md\n" && byAuthor == "# by_author.md\n"
    {
      hide Fresh, FileName, Run, Filings;
      FreshTexts();
      forall file: IndexFile { FreshRun(file); }
      byKeyword, byModule, byAuthor := Fresh(FileName(ByKeyword)), Fresh(FileName(ByModule)), Fresh(FileName(ByAuthor));
      log := [];
    }

    method Update(path: string, keywords: seq<string>, modules: seq<string>, author: string)
      requires Valid()
      modifies this
      ensures Valid() && log == old(log) + [LogEntry(path, keywords, modules, author)]
    {
      hide AppendText, Run, Filings, FileName;
      ghost var e := LogEntry(path, keywords, modules, author);
      RunAppends(ByKeyword, log, e);
      RunAppends(ByModule, log, e);
      RunAppends(ByAuthor, log, e);
      assert byKeyword == Content(ByKeyword) && byModule == Content(ByModule) && byAuthor == Content(ByAuthor);
      byKeyword := AppendTo(byKeyword, FileName(ByKeyword), keywords, path);
      byModule := AppendTo(byModule, FileName(ByModule), modules, path);
      byAuthor := AppendTo(byAuthor, FileName(ByAuthor), [author], path);
      log := log + [e];
    }

    /** A query returns what the history filed, if every update could be read back: exactly the
        paths of the updates given a key that is this one, in the order of first filing. */
    method LookupIn(file: IndexFile, key: string) returns (paths: seq<string>)
      requires Valid()
      ensures paths == LookupText(Content(file), key)
      ensures (forall e | e in log :: Answerable(e, file)) ==> Answers(paths, log, file, Strip(key))
      ensures (forall f | f in Filings(file, log) :: Readable(f)) ==> paths == Filed(Filings(file, log), Strip(key))
    {
      hide LookupText, Readable, Filed, Run, Answers, Answerable, KeysFor;
      paths := Lookup(Content(file), key);
      NamesAreOneLine(file);
      if forall f | f in Filings(file, log) :: Readable(f) {
        HistoryLookup(FileName(file), Filings(file, log), key);
      }
      FiledIsAnswer(file, log, Strip(key));
      forall e ensures Answerable(e, file) <==>
          Readable(Filing(KeysFor(file, e), e.path)) { AnswerableIsReadable(e, file); }
    }
  }

  method AppendTo(content: string, fileName: string, keys: seq<string>, path: string) returns (updated: string)
    ensures updated == AppendText(content, Filing(keys, path), fileName)
    ensures NormalKeys(keys) == [] ==> updated == content
  {
    hide MergeText;
    var normal := NormalKeys(keys);
    if |normal| == 0 { return content; }
    updated := Merge(AsRead(content), normal, path, fileName);
  }

  function AddEach(paths: seq<string>, hits: seq<string>): seq<string> {
    if hits == [] then paths else AddValue(AddEach(paths, hits[..|hits| - 1]), hits[|hits| - 1])
  }

  /** The hits of several keys, in the order the keys yield them, each path once. */
  function AllHits(content: string, keys: seq<string>): seq<string> {
    if keys == [] then []
    else AddEach(AllHits(content, keys[..|keys| - 1]), LookupText(content, keys[|keys| - 1]))
  }

  method LookupMany(content: string, keys: seq<string>) returns (seen: seq<string>)
    ensures seen == AllHits(content, keys)
  {
    hide LookupText;
    seen := [];
    for n := 0 to |keys|
      invariant seen == AllHits(content, keys[..n])
    {
      ghost var before := seen;
      var hits := Lookup(content, keys[n]);
      for m := 0 to |hits|
        invariant seen == AddEach(before, hits[..m])
      {
        assert hits[..m + 1][..m] == hits[..m];
        if hits[m] !in seen { seen := seen + [hits[m]]; }
      }
      assert hits[..|hits|] == hits && keys[..n + 1][..n] == keys[..n];
    }
    assert keys[..|keys|] == keys;
  }

  lemma {:induction false} AddEachMeaning(paths: seq<string>, hits: seq<string>)
    requires forall i, j | 0 <= i < j < |paths| :: paths[i] != paths[j]
    ensures var all := AddEach(paths, hits); paths <= all && forall i, j | 0 <= i < j < |all| :: all[i] != all[j]
    ensures forall v :: v in AddEach(paths, hits) <==> v in paths || v in hits
    decreases |hits|
  {
    if hits != [] {
      AddEachMeaning(paths, hits[..|hits| - 1]);
      assert hits == hits[..|hits| - 1] + [hits[|hits| - 1]];
    }
  }

  /** Several keys yield the union of their hits without repetition, earlier keys first. */
  lemma {:induction false} AllHitsMeaning(content: string, keys: seq<string>)
    ensures var all := AllHits(content, keys); forall i, j | 0 <= i < j < |all| :: all[i] != all[j]
    ensures forall v :: v in AllHits(content, keys) <==> exists k :: k in keys && v in LookupText(content, k)
    ensures keys != [] ==> AllHits(content, keys[..|keys| - 1]) <= AllHits(content, keys)
    decreases |keys|
  {
    hide LookupText;
    if keys != [] {
      var front, last := keys[..|keys| - 1], keys[|keys| - 1];
      AllHitsMeaning(content, front);
      AddEachMeaning(AllHits(content, front), LookupText(content, last));
      assert keys == front + [last];
    }
  }
}
