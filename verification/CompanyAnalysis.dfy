/** Batched analysis of company documents over a fingerprint cache: a run pays only for files
    whose summary is missing or stale, a bounded number of batches at a time. */
module CompanyAnalysis {
  import opened Wrappers

  /** A parsed file with the fingerprint its path has on disk. */
  datatype SourceFile = SourceFile(path: string, text: string, mtime: int, size: int)

  datatype CacheEntry = CacheEntry(mtime: int, size: int, summary: string)

  type Knowledge = map<string, CacheEntry>

  /** One answer of the model for a batch: nothing that parses, or a summary per file, blank
      where the answer has none for that file. */
  type Answer = Option<SourceFile -> string>

  /** The model: an arbitrary answer to the i-th call. */
  type Model = (nat, seq<SourceFile>) -> Answer

  datatype Analysis = Analysis(summarizedFiles: nat, cachedFiles: nat, failedBatches: nat, deferredFiles: nat,
      hasProfile: bool)

  // ----- The cache -----

  function CachedSummary(know: Knowledge, f: SourceFile): Option<string> {
    if f.path in know && know[f.path].mtime == f.mtime && know[f.path].size == f.size && know[f.path].summary != ""
    then Some(know[f.path].summary) else None
  }

  predicate Hit(know: Knowledge, f: SourceFile) {
    CachedSummary(know, f).Some?
  }

  function PendingFiles(files: seq<SourceFile>, know: Knowledge): seq<SourceFile> {
    if files == [] then []
    else
      var last := files[|files| - 1];
      PendingFiles(files[..|files| - 1], know) + if Hit(know, last) then [] else [last]
  }

  /** The summaries that a run starts with: those found in the cache, by path. */
  function CachedTexts(files: seq<SourceFile>, know: Knowledge): map<string, string> {
    if files == [] then map[]
    else
      var before, last := CachedTexts(files[..|files| - 1], know), files[|files| - 1];
      match CachedSummary(know, last)
      case None => before
      case Some(text) => before[last.path := text]
  }

  function Texts(know: Knowledge): map<string, string> {
    map path | path in know :: know[path].summary
  }

  // ----- Batches -----

  function Chunks(s: seq<SourceFile>, size: nat): seq<seq<SourceFile>>
    requires size > 0
  {
    if s == [] then [] else if |s| <= size then [s] else [s[..size]] + Chunks(s[size..], size)
  }

  function Flatten(batches: seq<seq<SourceFile>>): seq<SourceFile> {
    if batches == [] then [] else batches[0] + Flatten(batches[1..])
  }

  function Times(a: nat, b: nat): nat {
    a * b
  }

  function Min(a: nat, b: nat): nat {
    if a < b then a else b
  }

  lemma {:induction false} FlattenAdds(a: seq<seq<SourceFile>>, b: seq<seq<SourceFile>>)
    ensures Flatten(a + b) == Flatten(a) + Flatten(b)
    decreases |a|
  {
    if a == [] {
      assert a + b == b;
    } else {
      assert (a + b)[1..] == a[1..] + b;
      FlattenAdds(a[1..], b);
    }
  }

  lemma {:induction false} ChunkSizes(s: seq<SourceFile>, size: nat)
    requires size > 0
    ensures forall c | c in Chunks(s, size) :: 1 <= |c| <= size
    decreases |s|
  {
    if |s| > size { ChunkSizes(s[size..], size); }
  }

  lemma {:induction false} ChunkCount(s: seq<SourceFile>, size: nat)
    requires size > 0
    ensures |s| <= |Chunks(s, size)| * size < |s| + size
    decreases |s|
  {
    if |s| > size {
      ChunkCount(s[size..], size);
      OneMore(|Chunks(s[size..], size)|, size);
    }
  }

  lemma OneMore(n: nat, size: nat)
    ensures (n + 1) * size == n * size + size
  {
  }

  lemma PrefixParts(s: seq<SourceFile>, size: nat, k: nat)
    requires size + k <= |s|
    ensures s[..size] + s[size..][..k] == s[..size + k]
  {
  }

  /** The first m batches are the first m * size files, in order. */
  lemma {:induction false} FirstChunks(s: seq<SourceFile>, size: nat, m: nat)
    requires size > 0 && m <= |Chunks(s, size)|
    ensures Flatten(Chunks(s, size)[..m]) == s[..Min(m * size, |s|)]
    decreases |s|
  {
    var chunks := Chunks(s, size);
    if m == 0 {
      assert chunks[..0] == [] && s[..0] == [];
    } else if |s| <= size {
      assert chunks[..1] == [s] && m == 1 && [s][1..] == [];
      assert Flatten([s]) == s + [];
    } else {
      var rest := Chunks(s[size..], size);
      FirstChunks(s[size..], size, m - 1);
      assert chunks[..m] == [s[..size]] + rest[..m - 1];
      assert m * size == (m - 1) * size + size;
      FlattenCons(s[..size], rest[..m - 1]);
      assert (m - 1) * size >= 0;
      var k := Min((m - 1) * size, |s| - size);
      PrefixParts(s, size, k);
    }
  }

  lemma FlattenCons(c: seq<SourceFile>, rest: seq<seq<SourceFile>>)
    ensures Flatten([c] + rest) == c + Flatten(rest)
  {
    assert ([c] + rest)[1..] == rest;
  }

  /** Batches are non-empty, no larger than asked, and partition the list in order. */
  lemma ChunksPartition(s: seq<SourceFile>, size: nat, m: nat)
    requires size > 0 && m <= |Chunks(s, size)|
    ensures Flatten(Chunks(s, size)) == s
    ensures forall c | c in Chunks(s, size) :: 1 <= |c| <= size
    ensures Flatten(Chunks(s, size)[..m]) == s[..Min(m * size, |s|)]
    ensures |s| <= |Chunks(s, size)| * size < |s| + size
  {
    hide Chunks, Flatten;
    var chunks := Chunks(s, size);
    ChunkSizes(s, size);
    ChunkCount(s, size);
    FirstChunks(s, size, m);
    FirstChunks(s, size, |chunks|);
    assert chunks[..|chunks|] == chunks && s[..|s|] == s;
  }

  // ----- One run -----

  /** The entries one answered batch stores. */
  function BatchEntries(batch: seq<SourceFile>, summary: SourceFile -> string): Knowledge {
    if batch == [] then map[]
    else
      var f := batch[|batch| - 1];
      var before := BatchEntries(batch[..|batch| - 1], summary);
      if summary(f) == "" then before else before[f.path := CacheEntry(f.mtime, f.size, summary(f))]
  }

  /** The entries the first n batches store. */
  function Entries(batches: seq<seq<SourceFile>>, n: nat, model: Model): Knowledge
    requires n <= |batches|
  {
    if n == 0 then map[]
    else
      var before := Entries(batches, n - 1, model);
      match model(n - 1, batches[n - 1])
      case None => before
      case Some(summary) => before + BatchEntries(batches[n - 1], summary)
  }

  /** How many files of a batch the answer has a summary for. */
  function CountAnswered(batch: seq<SourceFile>, summary: SourceFile -> string): nat {
    if batch == [] then 0
    else CountAnswered(batch[..|batch| - 1], summary) + if summary(batch[|batch| - 1]) == "" then 0 else 1
  }

  /** The files of a batch that the answer has no summary for. */
  function LeftOut(batch: seq<SourceFile>, summary: SourceFile -> string): seq<SourceFile> {
    if batch == [] then []
    else LeftOut(batch[..|batch| - 1], summary) + if summary(batch[|batch| - 1]) == "" then [batch[|batch| - 1]] else []
  }

  /** The files of the first n batches that their answers leave out. */
  function OmittedFiles(batches: seq<seq<SourceFile>>, n: nat, model: Model): seq<SourceFile>
    requires n <= |batches|
  {
    if n == 0 then []
    else
      var before := OmittedFiles(batches, n - 1, model);
      match model(n - 1, batches[n - 1])
      case None => before
      case Some(summary) => before + LeftOut(batches[n - 1], summary)
  }

  lemma {:induction false} AnsweredOrLeftOut(batch: seq<SourceFile>, summary: SourceFile -> string)
    ensures CountAnswered(batch, summary) + |LeftOut(batch, summary)| == |batch|
    ensures forall f :: f in LeftOut(batch, summary) <==> f in batch && summary(f) == ""
    decreases |batch|
  {
    if batch != [] {
      AnsweredOrLeftOut(batch[..|batch| - 1], summary);
      assert batch == batch[..|batch| - 1] + [batch[|batch| - 1]];
    }
  }

  /** The first n batches whose answers did not parse, and the files among them. */
  function FailedBatches(batches: seq<seq<SourceFile>>, n: nat, model: Model): seq<seq<SourceFile>>
    requires n <= |batches|
  {
    if n == 0 then []
    else FailedBatches(batches, n - 1, model) + if model(n - 1, batches[n - 1]).None? then [batches[n - 1]] else []
  }

  function SummarizedFiles(batches: seq<seq<SourceFile>>, n: nat, model: Model): nat
    requires n <= |batches|
  {
    if n == 0 then 0
    else
      var before := SummarizedFiles(batches, n - 1, model);
      match model(n - 1, batches[n - 1])
      case None => before
      case Some(summary) => before + CountAnswered(batches[n - 1], summary)
  }

  function TakenBatches(files: seq<SourceFile>, know: Knowledge, batchSize: nat, maxBatches: nat): seq<seq<SourceFile>>
    requires batchSize > 0
  {
    var batches := Chunks(PendingFiles(files, know), batchSize);
    if |batches| > maxBatches then batches[..maxBatches] else batches
  }

  /** The cache after one run. */
  function RunKnowledge(files: seq<SourceFile>, know: Knowledge, model: Model, batchSize: nat,
                        maxBatches: nat): Knowledge
    requires batchSize > 0
  {
    var batches := TakenBatches(files, know, batchSize, maxBatches);
    know + Entries(batches, |batches|, model)
  }

  /** The summaries that the closing call is told after one run. */
  function ToldBy(files: seq<SourceFile>, know: Knowledge, model: Model, batchSize: nat,
                  maxBatches: nat): map<string, string>
    requires batchSize > 0
  {
    var batches := TakenBatches(files, know, batchSize, maxBatches);
    CachedTexts(files, know) + Texts(Entries(batches, |batches|, model))
  }

  lemma FlattenSnoc(batches: seq<seq<SourceFile>>, n: nat)
    requires n < |batches|
    ensures Flatten(batches[..n + 1]) == Flatten(batches[..n]) + batches[n]
  {
    assert batches[..n + 1] == batches[..n] + [batches[n]];
    FlattenAdds(batches[..n], [batches[n]]);
    assert [batches[n]][1..] == [];
    assert Flatten([batches[n]]) == batches[n] + [];
  }

  lemma {:induction false} CountWithin(batch: seq<SourceFile>, summary: SourceFile -> string)
    ensures CountAnswered(batch, summary) <= |batch|
    ensures CountAnswered(batch, summary) == 0 <==> BatchEntries(batch, summary) == map[]
    decreases |batch|
  {
    if batch != [] {
      var f := batch[|batch| - 1];
      CountWithin(batch[..|batch| - 1], summary);
      assert summary(f) != "" ==> f.path in BatchEntries(batch, summary);
    }
  }

  class CompanyKnowledgeStore {
    var summaries: Knowledge

    constructor ()
      ensures summaries == map[]
    {
      summaries := map[];
    }

    method StoreSummaries(entries: Knowledge)
      modifies this
      ensures summaries == old(summaries) + entries
    {
      summaries := summaries + entries;
    }
  }

  method SplitByCache(files: seq<SourceFile>, know: Knowledge)
    returns (pending: seq<SourceFile>, cached: nat, told: map<string, string>)
    ensures pending == PendingFiles(files, know) && cached == |files| - |pending|
    ensures told == CachedTexts(files, know) && (told == map[] <==> cached == 0)
  {
    cached, pending, told := 0, [], map[];
    for n := 0 to |files|
      invariant pending == PendingFiles(files[..n], know) && cached + |pending| == n
      invariant told == CachedTexts(files[..n], know) && (told == map[] <==> cached == 0)
    {
      assert files[..n + 1][..n] == files[..n];
      var summary := CachedSummary(know, files[n]);
      if summary.Some? {
        told := told[files[n].path := summary.value];
        assert files[n].path in told;
        cached := cached + 1;
      } else {
        pending := pending + [files[n]];
      }
    }
    assert files[..|files|] == files;
  }

  /** Asks the model batch by batch, storing after every batch; `told` gathers the summaries. */
  method RunBatches(batches: seq<seq<SourceFile>>, store: CompanyKnowledgeStore, model: Model,
                    cachedTexts: map<string, string>)
    returns (summarized: nat, failedBatches: nat, calls: nat, told: map<string, string>)
    modifies store
    ensures told == cachedTexts + Texts(Entries(batches, |batches|, model))
    ensures told == map[] <==> cachedTexts == map[] && summarized == 0
    ensures store.summaries == old(store.summaries) + Entries(batches, |batches|, model)
    ensures summarized == SummarizedFiles(batches, |batches|, model)
    ensures failedBatches == |FailedBatches(batches, |batches|, model)|
    ensures calls == |batches|
  {
    hide Entries, BatchEntries, CountAnswered, SummarizedFiles, FailedBatches, Texts, ToldOk, StoredOk;
    summarized, failedBatches, calls, told := 0, 0, 0, cachedTexts;
    ghost var know := store.summaries;
    NothingRun(batches, know, model);
    ToldAtFirst(cachedTexts, batches, model);
    for n := 0 to |batches|
      invariant summarized == SummarizedFiles(batches, n, model)
      invariant failedBatches == |FailedBatches(batches, n, model)|
      invariant StoredOk(store.summaries, know, batches, n, model)
      invariant calls == n
      invariant ToldOk(told, cachedTexts, batches, n, model, summarized)
    {
      CountsSnoc(batches, n, model);
      var answer := model(n, batches[n]);
      calls := calls + 1;
      if answer.None? {
        ToldSame(told, cachedTexts, batches, n, model, summarized);
        StoredSame(store.summaries, know, batches, n, model);
        failedBatches := failedBatches + 1;
      } else {
        var entries, texts, answered := CollectEntries(batches[n], answer.value);
        ToldNext(told, cachedTexts, batches, n, model, summarized, texts);
        StoredNext(store.summaries, know, batches, n, model, entries);
        told := told + texts;
        summarized := summarized + answered;
        if entries != map[] { store.StoreSummaries(entries); }
      }
    }
    ToldAtLast(told, cachedTexts, batches, model, summarized);
    StoredAtLast(store.summaries, know, batches, model);
  }

  /** Every batched file is summarized, in a batch whose answer did not parse, or left out of its
      batch's answer. */
  lemma {:induction false} BatchesAddUp(batches: seq<seq<SourceFile>>, n: nat, model: Model)
    requires n <= |batches|
    ensures SummarizedFiles(batches, n, model) + |Flatten(FailedBatches(batches, n, model))|
        + |OmittedFiles(batches, n, model)|
      == |Flatten(batches[..n])|
    decreases n
  {
    hide Flatten, CountAnswered, LeftOut;
    if n == 0 {
      assert batches[..0] == [];
      NothingFlattened();
    } else {
      BatchesAddUp(batches, n - 1, model);
      FlattenSnoc(batches, n - 1);
      CountsSnoc(batches, n - 1, model);
      FlattenOneMore(FailedBatches(batches, n - 1, model), batches[n - 1]);
      match model(n - 1, batches[n - 1])
      case None =>
      case Some(summary) => AnsweredOrLeftOut(batches[n - 1], summary);
    }
  }

  /** A file is left out exactly when its batch was answered, without a summary for it. */
  lemma {:induction false} OmittedMeaning(batches: seq<seq<SourceFile>>, n: nat, model: Model, f: SourceFile)
    requires n <= |batches|
    ensures f in OmittedFiles(batches, n, model) <==>
      exists k | 0 <= k < n :: f in batches[k] && model(k, batches[k]).Some? && model(k, batches[k]).value(f) == ""
    decreases n
  {
    hide LeftOut;
    if n > 0 {
      OmittedMeaning(batches, n - 1, model, f);
      match model(n - 1, batches[n - 1])
      case None =>
      case Some(summary) => AnsweredOrLeftOut(batches[n - 1], summary);
    }
  }

  lemma NothingFlattened()
    ensures |Flatten([])| == 0
  {
  }

  lemma FlattenOneMore(batches: seq<seq<SourceFile>>, batch: seq<SourceFile>)
    ensures Flatten(batches + [batch]) == Flatten(batches) + batch
  {
    var all := batches + [batch];
    FlattenSnoc(all, |batches|);
    assert all[..|batches|] == batches && all[..|batches| + 1] == all;
  }

  lemma CountsSnoc(batches: seq<seq<SourceFile>>, n: nat, model: Model)
    requires n < |batches|
    ensures match model(n, batches[n])
            case None =>
              && SummarizedFiles(batches, n + 1, model) == SummarizedFiles(batches, n, model)
              && |FailedBatches(batches, n + 1, model)| == |FailedBatches(batches, n, model)| + 1
            case Some(summary) =>
              && SummarizedFiles(batches, n + 1, model) ==
                  SummarizedFiles(batches, n, model) + CountAnswered(batches[n], summary)
              && FailedBatches(batches, n + 1, model) == FailedBatches(batches, n, model)
  {
  }

  lemma NothingRun(batches: seq<seq<SourceFile>>, know: Knowledge, model: Model)
    ensures SummarizedFiles(batches, 0, model) == 0 && FailedBatches(batches, 0, model) == []
    ensures StoredOk(know, know, batches, 0, model)
  {
  }

  /** What is gathered after n batches: the cached summaries and those of the answers. */
  ghost predicate ToldOk(told: map<string, string>, cachedTexts: map<string, string>, batches: seq<seq<SourceFile>>,
                         n: nat, model: Model, summarized: nat)
    requires n <= |batches|
  {
    && told == cachedTexts + Texts(Entries(batches, n, model))
    && (told == map[] <==> cachedTexts == map[] && summarized == 0)
  }

  lemma ToldAtFirst(cachedTexts: map<string, string>, batches: seq<seq<SourceFile>>, model: Model)
    ensures ToldOk(cachedTexts, cachedTexts, batches, 0, model, 0)
  {
  }

  lemma ToldAtLast(told: map<string, string>, cachedTexts: map<string, string>, batches: seq<seq<SourceFile>>,
                   model: Model, summarized: nat)
    requires ToldOk(told, cachedTexts, batches, |batches|, model, summarized)
    ensures told == cachedTexts + Texts(Entries(batches, |batches|, model))
    ensures told == map[] <==> cachedTexts == map[] && summarized == 0
  {
  }

  lemma ToldNext(told: map<string, string>, cachedTexts: map<string, string>, batches: seq<seq<SourceFile>>, n: nat,
                 model: Model, summarized: nat, texts: map<string, string>)
    requires n < |batches| && model(n, batches[n]).Some? && ToldOk(told, cachedTexts, batches, n, model, summarized)
    requires texts == Texts(BatchEntries(batches[n], model(n, batches[n]).value))
    ensures ToldOk(told + texts, cachedTexts, batches, n + 1, model,
                   summarized + CountAnswered(batches[n], model(n, batches[n]).value))
  {
    hide BatchEntries, CountAnswered, Entries, Texts;
    var summary := model(n, batches[n]).value;
    var entries := BatchEntries(batches[n], summary);
    CountWithin(batches[n], summary);
    EntriesNext(batches, n, model);
    TextsAdd(cachedTexts, Entries(batches, n, model), entries);
    NothingTold(told, texts, entries);
  }

  lemma EntriesNext(batches: seq<seq<SourceFile>>, n: nat, model: Model)
    requires n < |batches| && model(n, batches[n]).Some?
    ensures Entries(batches, n + 1, model)
         == Entries(batches, n, model) + BatchEntries(batches[n], model(n, batches[n]).value)
  {
  }

  lemma TextsAdd(told: map<string, string>, a: Knowledge, b: Knowledge)
    ensures told + Texts(a + b) == told + Texts(a) + Texts(b)
  {
    assert Texts(a + b) == Texts(a) + Texts(b);
    hide Texts;
    ToldInTurn(told, Texts(a), Texts(b));
  }

  lemma ToldInTurn(a: map<string, string>, b: map<string, string>, c: map<string, string>)
    ensures a + (b + c) == (a + b) + c
  {
  }

  lemma NothingTold(told: map<string, string>, texts: map<string, string>, entries: Knowledge)
    requires texts == Texts(entries)
    ensures told + texts == map[] <==> told == map[] && entries == map[]
  {
    if p :| p in entries { assert p in told + texts; }
    if p :| p in told { assert p in told + texts; }
  }

  lemma ToldSame(told: map<string, string>, cachedTexts: map<string, string>, batches: seq<seq<SourceFile>>, n: nat,
                 model: Model, summarized: nat)
    requires n < |batches| && model(n, batches[n]).None? && ToldOk(told, cachedTexts, batches, n, model, summarized)
    ensures ToldOk(told, cachedTexts, batches, n + 1, model, summarized)
  {
  }

  /** What is stored after n batches. */
  ghost predicate StoredOk(now: Knowledge, know: Knowledge, batches: seq<seq<SourceFile>>, n: nat, model: Model)
    requires n <= |batches|
  {
    now == know + Entries(batches, n, model)
  }

  lemma StoredNext(now: Knowledge, know: Knowledge, batches: seq<seq<SourceFile>>, n: nat, model: Model,
                   entries: Knowledge)
    requires n < |batches| && model(n, batches[n]).Some? && StoredOk(now, know, batches, n, model)
    requires entries == BatchEntries(batches[n], model(n, batches[n]).value)
    ensures StoredOk(now + entries, know, batches, n + 1, model)
    ensures entries == map[] ==> now + entries == now
  {
    hide BatchEntries, Entries;
    EntriesNext(batches, n, model);
    StoredInTurn(know, Entries(batches, n, model), entries);
  }

  lemma StoredInTurn(a: Knowledge, b: Knowledge, c: Knowledge)
    ensures a + (b + c) == (a + b) + c && a + map[] == a
  {
  }

  lemma StoredSame(now: Knowledge, know: Knowledge, batches: seq<seq<SourceFile>>, n: nat, model: Model)
    requires n < |batches| && model(n, batches[n]).None? && StoredOk(now, know, batches, n, model)
    ensures StoredOk(now, know, batches, n + 1, model)
  {
  }

  lemma StoredAtLast(now: Knowledge, know: Knowledge, batches: seq<seq<SourceFile>>, model: Model)
    requires StoredOk(now, know, batches, |batches|, model)
    ensures now == know + Entries(batches, |batches|, model)
  {
  }

  /** One analysis run. Every file is accounted for once: it was cached, summarized now, put off
      to a later run, in a batch whose answer did not parse, or left out of its batch's answer.
      The model is asked once per batch taken, and once more if there is any summary; then `told`
      is what it is told. */
  method AnalyzeDocuments(files: seq<SourceFile>, store: CompanyKnowledgeStore, model: Model, profileParses: bool,
                          batchSize: nat, maxBatches: nat)
    returns (result: Analysis, calls: nat, told: map<string, string>)
    requires batchSize > 0
    modifies store
    ensures told == ToldBy(files, old(store.summaries), model, batchSize, maxBatches)
    ensures told == map[] <==> result.cachedFiles + result.summarizedFiles == 0
    ensures var taken := TakenBatches(files, old(store.summaries), batchSize, maxBatches);
            && result.cachedFiles + result.summarizedFiles + result.deferredFiles
                 + |Flatten(FailedBatches(taken, |taken|, model))| + |OmittedFiles(taken, |taken|, model)| == |files|
            && result.summarizedFiles == SummarizedFiles(taken, |taken|, model)
            && result.failedBatches == |FailedBatches(taken, |taken|, model)|
            && result.deferredFiles == |PendingFiles(files, old(store.summaries))| - |Flatten(taken)|
            && calls == |taken| + (if result.cachedFiles + result.summarizedFiles > 0 then 1 else 0) <= maxBatches + 1
    ensures result.cachedFiles == |files| - |PendingFiles(files, old(store.summaries))|
    ensures store.summaries == RunKnowledge(files, old(store.summaries), model, batchSize, maxBatches)
    ensures result.hasProfile <==> profileParses && result.cachedFiles + result.summarizedFiles > 0
  {
    hide PendingFiles, Chunks, Flatten, Entries, SummarizedFiles, FailedBatches, OmittedFiles;
    var pending, cached, cachedTexts := SplitByCache(files, store.summaries);
    var batches := Chunks(pending, batchSize);
    ChunksPartition(pending, batchSize, 0);
    var deferred := 0;
    if |batches| > maxBatches {
      FlattenAdds(batches[..maxBatches], batches[maxBatches..]);
      assert batches[..maxBatches] + batches[maxBatches..] == batches;
      deferred := CountFiles(batches[maxBatches..]);
      batches := batches[..maxBatches];
    }
    var summarized, failedBatches;
    summarized, failedBatches, calls, told := RunBatches(batches, store, model, cachedTexts);
    BatchesAddUp(batches, |batches|, model);
    assert batches[..|batches|] == batches;
    var hasProfile := false;
    if told != map[] {
      calls := calls + 1;
      hasProfile := profileParses;
    }
    result := Analysis(summarized, cached, failedBatches, deferred, hasProfile);
  }

  method CountFiles(batches: seq<seq<SourceFile>>) returns (n: nat)
    ensures n == |Flatten(batches)|
  {
    n := 0;
    assert batches[..0] == [];
    for k := 0 to |batches|
      invariant n == |Flatten(batches[..k])|
    {
      FlattenSnoc(batches, k);
      n := n + |batches[k]|;
    }
    assert batches[..|batches|] == batches;
  }

  method CollectEntries(batch: seq<SourceFile>, summary: SourceFile -> string)
    returns (entries: Knowledge, texts: map<string, string>, answered: nat)
    ensures entries == BatchEntries(batch, summary) && answered == CountAnswered(batch, summary)
    ensures texts == Texts(entries)
  {
    entries, texts, answered := map[], map[], 0;
    for k := 0 to |batch|
      invariant texts == Texts(entries)
      invariant entries == BatchEntries(batch[..k], summary) && answered == CountAnswered(batch[..k], summary)
    {
      assert batch[..k + 1][..k] == batch[..k];
      if summary(batch[k]) != "" {
        texts := texts[batch[k].path := summary(batch[k])];
        entries := entries[batch[k].path := CacheEntry(batch[k].mtime, batch[k].size, summary(batch[k]))];
        answered := answered + 1;
      }
    }
    assert batch[..|batch|] == batch;
  }

  // ----- From run to run -----

  ghost predicate DistinctPaths(files: seq<SourceFile>) {
    forall i, j | 0 <= i < j < |files| :: files[i].path != files[j].path
  }

  lemma {:induction false} PendingMembers(files: seq<SourceFile>, know: Knowledge)
    ensures forall f :: f in PendingFiles(files, know) <==> f in files && !Hit(know, f)
    decreases |files|
  {
    hide Hit;
    if files != [] {
      PendingMembers(files[..|files| - 1], know);
      assert files == files[..|files| - 1] + [files[|files| - 1]];
    }
  }

  lemma {:induction false} PendingDistinct(files: seq<SourceFile>, know: Knowledge)
    requires DistinctPaths(files)
    ensures DistinctPaths(PendingFiles(files, know))
    decreases |files|
  {
    hide Hit;
    if files != [] {
      var front, last := files[..|files| - 1], files[|files| - 1];
      var kept := PendingFiles(front, know);
      PendingMembers(front, know);
      PendingDistinct(front, know);
      forall k | 0 <= k < |kept| ensures kept[k].path != last.path {
        assert kept[k] in front;
        var i :| 0 <= i < |front| && front[i] == kept[k];
        assert files[i].path != files[|front|].path;
      }
    }
  }

  lemma {:induction false} EntriesComeFromFiles(batch: seq<SourceFile>, summary: SourceFile -> string)
    ensures forall p | p in BatchEntries(batch, summary) ::
      exists f :: f in batch && f.path == p && summary(f) != ""
          && BatchEntries(batch, summary)[p] == CacheEntry(f.mtime, f.size, summary(f))
    ensures forall f | f in batch && summary(f) != "" :: f.path in BatchEntries(batch, summary)
    decreases |batch|
  {
    if batch != [] {
      EntriesComeFromFiles(batch[..|batch| - 1], summary);
      assert batch == batch[..|batch| - 1] + [batch[|batch| - 1]];
    }
  }

  /** A file counts as read by a run if some batch it is in is answered with a summary for it. */
  ghost predicate Read(batches: seq<seq<SourceFile>>, n: nat, model: Model, f: SourceFile)
    requires n <= |batches|
  {
    exists k | 0 <= k < n :: f in batches[k] && model(k, batches[k]).Some? && model(k, batches[k]).value(f) != ""
  }

  lemma {:induction false} InFlatten(batches: seq<seq<SourceFile>>, k: nat, f: SourceFile)
    requires k < |batches| && f in batches[k]
    ensures f in Flatten(batches)
    decreases |batches|
  {
    if k > 0 { InFlatten(batches[1..], k - 1, f); }
  }

  ghost predicate OnePathEach(files: seq<SourceFile>) {
    forall f, g | f in files && g in files && f.path == g.path :: f == g
  }

  lemma {:induction false} EntriesMeaning(batches: seq<seq<SourceFile>>, n: nat, model: Model, f: SourceFile)
    requires n <= |batches| && OnePathEach(Flatten(batches)) && f in Flatten(batches)
    ensures f.path in Entries(batches, n, model) <==> Read(batches, n, model, f)
    ensures f.path in Entries(batches, n, model) ==> Hit(Entries(batches, n, model), f)
    decreases n
  {
    if n > 0 {
      EntriesMeaning(batches, n - 1, model, f);
      var batch := batches[n - 1];
      match model(n - 1, batch)
      case None =>
      case Some(summary) =>
        EntriesComeFromFiles(batch, summary);
        var stored := BatchEntries(batch, summary);
        if f.path in stored {
          var g :| g in batch && g.path == f.path && summary(g) != ""
              && stored[f.path] == CacheEntry(g.mtime, g.size, summary(g));
          InFlatten(batches, n - 1, g);
          assert g == f;
        }
    }
  }

  lemma {:induction false} NoEntry(batches: seq<seq<SourceFile>>, n: nat, model: Model, p: string)
    requires n <= |batches| && forall f | f in Flatten(batches) :: f.path != p
    ensures p !in Entries(batches, n, model)
    decreases n
  {
    if n > 0 {
      NoEntry(batches, n - 1, model, p);
      var batch := batches[n - 1];
      forall f | f in batch ensures f.path != p { InFlatten(batches, n - 1, f); }
      match model(n - 1, batch)
      case None =>
      case Some(summary) => EntriesComeFromFiles(batch, summary);
    }
  }

  lemma DistinctMeansOne(files: seq<SourceFile>)
    requires DistinctPaths(files)
    ensures OnePathEach(files)
  {
  }

  /** After a run a file is a cache hit exactly when it was one before or the run read it. */
  lemma HitAfterRun(files: seq<SourceFile>, know: Knowledge, model: Model, batchSize: nat, maxBatches: nat,
                    f: SourceFile)
    requires batchSize > 0 && DistinctPaths(files) && f in files
    ensures var batches := TakenBatches(files, know, batchSize, maxBatches);
            Hit(RunKnowledge(files, know, model, batchSize, maxBatches), f) <==>
                Hit(know, f) || Read(batches, |batches|, model, f)
  {
    hide PendingFiles, Chunks, Entries, Flatten, Read;
    var pending, batches := PendingFiles(files, know), TakenBatches(files, know, batchSize, maxBatches);
    var m := Min(maxBatches, |Chunks(pending, batchSize)|);
    PendingMembers(files, know);
    ChunksPartition(pending, batchSize, m);
    assert batches == Chunks(pending, batchSize)[..m];
    var taken := Flatten(batches);
    DistinctMeansOne(files);
    assert forall g | g in taken :: g in pending;
    var entries := Entries(batches, |batches|, model);
    if f in taken {
      EntriesMeaning(batches, |batches|, model, f);
    } else {
      NoEntry(batches, |batches|, model, f.path);
      assert !Read(batches, |batches|, model, f) by { NotReadOutside(batches, model, f); }
    }
  }

  lemma NotReadOutside(batches: seq<seq<SourceFile>>, model: Model, f: SourceFile)
    requires f !in Flatten(batches)
    ensures !Read(batches, |batches|, model, f)
  {
    hide Flatten;
    if Read(batches, |batches|, model, f) {
      var k :| 0 <= k < |batches| && f in batches[k] && model(k, batches[k]).Some?
          && model(k, batches[k]).value(f) != "";
      InFlatten(batches, k, f);
    }
  }

  // ----- Which text is found, and when a file is read again -----

  lemma CachedMeaning(know: Knowledge, f: SourceFile, text: string)
    ensures CachedSummary(know, f) == Some(text) <==>
      text != "" && f.path in know && know[f.path] == CacheEntry(f.mtime, f.size, text)
  {
  }

  lemma ApartDiffer(head: seq<SourceFile>, tail: seq<SourceFile>, f: SourceFile, g: SourceFile)
    requires DistinctPaths(head + tail) && f in head && g in tail
    ensures f.path != g.path
  {
    var x :| 0 <= x < |head| && head[x] == f;
    var y :| 0 <= y < |tail| && tail[y] == g;
    assert (head + tail)[x] == f && (head + tail)[|head| + y] == g;
  }

  lemma {:induction false} PathOnce(batches: seq<seq<SourceFile>>, k: nat, j: nat, f: SourceFile, g: SourceFile)
    requires DistinctPaths(Flatten(batches)) && k < |batches| && j < |batches|
    requires f in batches[k] && g in batches[j] && f.path == g.path
    ensures k == j && f == g
    decreases |batches|
  {
    var head, tail := batches[0], Flatten(batches[1..]);
    var all := Flatten(batches);
    assert all == head + tail;
    assert DistinctPaths(tail) by {
      forall x, y | 0 <= x < y < |tail| ensures tail[x].path != tail[y].path {
        assert all[|head| + x] == tail[x] && all[|head| + y] == tail[y];
      }
    }
    if k > 0 && j > 0 {
      PathOnce(batches[1..], k - 1, j - 1, f, g);
    } else if k == 0 && j == 0 {
      var x :| 0 <= x < |head| && head[x] == f;
      var y :| 0 <= y < |head| && head[y] == g;
      assert all[x] == f && all[y] == g;
    } else {
      if k > 0 { InFlatten(batches[1..], k - 1, f); } else { InFlatten(batches[1..], j - 1, g); }
      ApartDiffer(head, tail, if k == 0 then f else g, if k == 0 then g else f);
    }
  }

  /** What an answer said of a file is what is stored for it, with its fingerprint. */
  lemma {:induction false} EntryIsAnswer(batches: seq<seq<SourceFile>>, n: nat, model: Model, k: nat, f: SourceFile)
    requires DistinctPaths(Flatten(batches)) && k < n <= |batches| && f in batches[k]
    requires model(k, batches[k]).Some? && model(k, batches[k]).value(f) != ""
    ensures f.path in Entries(batches, n, model)
      && Entries(batches, n, model)[f.path] == CacheEntry(f.mtime, f.size, model(k, batches[k]).value(f))
    decreases n
  {
    var batch := batches[n - 1];
    if k < n - 1 { EntryIsAnswer(batches, n - 1, model, k, f); }
    if model(n - 1, batch).Some? {
      var stored := BatchEntries(batch, model(n - 1, batch).value);
      EntriesComeFromFiles(batch, model(n - 1, batch).value);
      if f.path in stored {
        var g :| g in batch && g.path == f.path && model(n - 1, batch).value(g) != ""
          && stored[f.path] == CacheEntry(g.mtime, g.size, model(n - 1, batch).value(g));
        PathOnce(batches, k, n - 1, f, g);
      }
    }
  }

  /** Across two runs: a file that a batch was answered for is found with that very text as long as
      its fingerprint stays, and is read again as soon as its time or its size is another. */
  lemma AnsweredIsFound(files: seq<SourceFile>, know: Knowledge, model: Model, batchSize: nat, maxBatches: nat,
                        k: nat, f: SourceFile, later: SourceFile, next: seq<SourceFile>)
    requires batchSize > 0 && DistinctPaths(files)
    requires var batches := TakenBatches(files, know, batchSize, maxBatches);
             k < |batches| && f in batches[k] && model(k, batches[k]).Some? && model(k, batches[k]).value(f) != ""
    requires later in next && later.path == f.path
    ensures var after, batch := RunKnowledge(files, know, model, batchSize, maxBatches),
                                TakenBatches(files, know, batchSize, maxBatches)[k];
            && (later.mtime == f.mtime && later.size == f.size ==>
                  CachedSummary(after, later) == Some(model(k, batch).value(f)) && later !in PendingFiles(next, after))
            && (later.mtime != f.mtime || later.size != f.size ==> later in PendingFiles(next, after))
  {
    hide PendingFiles, Chunks, Flatten, Entries;
    var pending, batches := PendingFiles(files, know), TakenBatches(files, know, batchSize, maxBatches);
    var m := Min(maxBatches, |Chunks(pending, batchSize)|);
    PendingDistinct(files, know);
    ChunksPartition(pending, batchSize, m);
    assert batches == Chunks(pending, batchSize)[..m];
    assert DistinctPaths(Flatten(batches));
    EntryIsAnswer(batches, |batches|, model, k, f);
    PendingMembers(next, RunKnowledge(files, know, model, batchSize, maxBatches));
  }

  lemma {:induction false} CachedTextsMeaning(files: seq<SourceFile>, know: Knowledge, path: string)
    ensures path in CachedTexts(files, know) <==>
        exists f :: f in files && f.path == path && CachedSummary(know, f).Some?
    ensures path in CachedTexts(files, know) ==>
      path in know && CachedTexts(files, know)[path] == know[path].summary
    decreases |files|
  {
    if files != [] {
      var front, last := files[..|files| - 1], files[|files| - 1];
      assert files == front + [last];
      CachedTextsMeaning(front, know, path);
    }
  }

  lemma {:induction false} EntriesAreOfFiles(batches: seq<seq<SourceFile>>, n: nat, model: Model, path: string)
    requires n <= |batches| && path in Entries(batches, n, model)
    ensures exists f :: f in Flatten(batches) && f.path == path
    decreases n
  {
    if forall f | f in Flatten(batches) :: f.path != path { NoEntry(batches, n, model, path); }
  }

  /** The closing call is told one summary for every file that has one, cached or fresh: exactly
      the text that the cache holds for it after the run; and it is told of no other file. */
  lemma ClosingCallIsTold(files: seq<SourceFile>, know: Knowledge, model: Model, batchSize: nat, maxBatches: nat)
    requires batchSize > 0 && forall i, j | 0 <= i < j < |files| :: files[i].path != files[j].path
    ensures var told, after := ToldBy(files, know, model, batchSize, maxBatches),
                               RunKnowledge(files, know, model, batchSize, maxBatches);
            && (forall path | path in told :: exists f :: f in files && f.path == path)
            && forall f | f in files ::
                 && (f.path in told <==> CachedSummary(after, f).Some?)
                 && (f.path in told ==> CachedSummary(after, f) == Some(told[f.path]))
  {
    hide PendingFiles, Chunks, Entries, Flatten, CachedTexts, TakenBatches, RunKnowledge, ToldBy;
    forall f | f in files ensures ToldOfFile(files, know, model, batchSize, maxBatches, f) {
      FileIsTold(files, know, model, batchSize, maxBatches, f);
    }
    forall path | path in ToldBy(files, know, model, batchSize, maxBatches)
        ensures exists f :: f in files && f.path == path {
      ToldOfAFile(files, know, model, batchSize, maxBatches, path);
    }
  }

  ghost predicate ToldOfFile(files: seq<SourceFile>, know: Knowledge, model: Model, batchSize: nat, maxBatches: nat,
                             f: SourceFile)
    requires batchSize > 0
  {
    var told, after := ToldBy(files, know, model, batchSize, maxBatches),
                       RunKnowledge(files, know, model, batchSize, maxBatches);
    && (f.path in told <==> CachedSummary(after, f).Some?)
    && (f.path in told ==> CachedSummary(after, f) == Some(told[f.path]))
  }

  lemma TakenFromFiles(files: seq<SourceFile>, know: Knowledge, batchSize: nat, maxBatches: nat)
    requires batchSize > 0 && DistinctPaths(files)
    ensures var taken := Flatten(TakenBatches(files, know, batchSize, maxBatches));
            OnePathEach(files) && OnePathEach(taken) && forall f | f in taken :: f in files
  {
    hide PendingFiles, Chunks, Flatten, Hit;
    var pending := PendingFiles(files, know);
    var m := Min(maxBatches, |Chunks(pending, batchSize)|);
    PendingMembers(files, know);
    ChunksPartition(pending, batchSize, m);
    assert TakenBatches(files, know, batchSize, maxBatches) == Chunks(pending, batchSize)[..m];
    DistinctMeansOne(files);
  }

  lemma ToldOfAFile(files: seq<SourceFile>, know: Knowledge, model: Model, batchSize: nat, maxBatches: nat,
                    path: string)
    requires batchSize > 0 && DistinctPaths(files) && path in ToldBy(files, know, model, batchSize, maxBatches)
    ensures exists f :: f in files && f.path == path
  {
    hide TakenBatches, Entries, Flatten, CachedTexts, DistinctPaths;
    var batches := TakenBatches(files, know, batchSize, maxBatches);
    CachedTextsMeaning(files, know, path);
    TakenFromFiles(files, know, batchSize, maxBatches);
    if path in Entries(batches, |batches|, model) { EntriesAreOfFiles(batches, |batches|, model, path); }
  }

  lemma FileIsTold(files: seq<SourceFile>, know: Knowledge, model: Model, batchSize: nat, maxBatches: nat,
                   f: SourceFile)
    requires batchSize > 0 && DistinctPaths(files) && f in files
    ensures ToldOfFile(files, know, model, batchSize, maxBatches, f)
  {
    hide TakenBatches, Entries, Flatten, CachedTexts, DistinctPaths, Read;
    var batches := TakenBatches(files, know, batchSize, maxBatches);
    var entries := Entries(batches, |batches|, model);
    CachedTextsMeaning(files, know, f.path);
    TakenFromFiles(files, know, batchSize, maxBatches);
    if f in Flatten(batches) {
      EntriesMeaning(batches, |batches|, model, f);
    } else {
      NoEntry(batches, |batches|, model, f.path);
    }
  }

  /** A model that answers every call, with a summary for every file asked about. */
  ghost predicate FullyAnswering(model: Model) {
    forall i: nat, batch: seq<SourceFile> ::
      model(i, batch).Some? && forall f | f in batch :: model(i, batch).value(f) != ""
  }

  /** Such a model answers for any file of any batch, and only such a model does. */
  lemma FullyAnsweringIs(model: Model)
    ensures FullyAnswering(model) <==>
      && (forall i: nat, batch: seq<SourceFile> :: model(i, batch) != None)
      && forall i: nat, batch: seq<SourceFile>, f: SourceFile ::
           f in batch && model(i, batch).Some? ==> |model(i, batch).value(f)| > 0
  {
  }

  lemma {:induction false} InSomeBatch(batches: seq<seq<SourceFile>>, f: SourceFile) returns (k: nat)
    requires f in Flatten(batches)
    ensures k < |batches| && f in batches[k]
    decreases |batches|
  {
    if f in batches[0] { k := 0; } else {
      k := InSomeBatch(batches[1..], f);
      k := k + 1;
    }
  }

  lemma {:induction false} PendingOfPending(files: seq<SourceFile>, know: Knowledge, later: Knowledge)
    requires forall f | f in files && Hit(know, f) :: Hit(later, f)
    ensures PendingFiles(files, later) == PendingFiles(PendingFiles(files, know), later)
    decreases |files|
  {
    hide Hit;
    if files != [] {
      var front, last := files[..|files| - 1], files[|files| - 1];
      assert files == front + [last];
      PendingOfPending(front, know, later);
      var kept := PendingFiles(front, know);
      assert (kept + [last])[..|kept|] == kept;
      assert kept + [] == kept && PendingFiles(kept, later) + [] == PendingFiles(kept, later);
    }
  }

  lemma {:induction false} PendingTail(pending: seq<SourceFile>, later: Knowledge, k: nat)
    requires k <= |pending|
    requires forall i | 0 <= i < |pending| :: Hit(later, pending[i]) <==> i < k
    ensures PendingFiles(pending, later) == pending[k..]
    decreases |pending|
  {
    hide Hit;
    if pending != [] {
      var front, last := pending[..|pending| - 1], pending[|pending| - 1];
      var j := if |pending| > k then k else k - 1;
      assert forall i | 0 <= i < |front| :: front[i] == pending[i];
      PendingTail(front, later, j);
      assert PendingFiles(pending, later) == front[j..] + if |pending| > k then [last] else [];
      TailGrows(pending, k);
    }
  }

  lemma TailGrows(s: seq<SourceFile>, k: nat)
    requires s != [] && k <= |s|
    ensures var front := s[..|s| - 1];
            s[k..] == if |s| > k then front[k..] + [s[|s| - 1]] else front[k - 1..]
  {
  }

  /** With a fully answering model one run reads exactly the next batchSize * maxBatches files. */
  lemma {:induction false} FullRunAdvances(files: seq<SourceFile>, know: Knowledge, model: Model, batchSize: nat,
                                           maxBatches: nat)
    requires batchSize > 0 && DistinctPaths(files) && FullyAnswering(model)
    ensures var pending := PendingFiles(files, know);
            PendingFiles(files, RunKnowledge(files, know, model, batchSize, maxBatches))
              == pending[Min(Times(batchSize, maxBatches), |pending|)..]
  {
    hide PendingFiles, Chunks, Flatten, RunKnowledge, Hit, Read;
    var pending, batches := PendingFiles(files, know), TakenBatches(files, know, batchSize, maxBatches);
    var chunks := Chunks(pending, batchSize);
    var m, k := Min(maxBatches, |chunks|), Min(batchSize * maxBatches, |pending|);
    var later := RunKnowledge(files, know, model, batchSize, maxBatches);
    PendingMembers(files, know);
    PendingDistinct(files, know);
    ChunksPartition(pending, batchSize, m);
    assert batches == chunks[..m];
    TakenCount(|pending|, |chunks|, batchSize, maxBatches);
    assert Flatten(batches) == pending[..k];
    forall f | f in files && Hit(know, f) ensures Hit(later, f) {
      HitAfterRun(files, know, model, batchSize, maxBatches, f);
    }
    forall i | 0 <= i < |pending| ensures Hit(later, pending[i]) <==> i < k {
      var f := pending[i];
      assert f in pending;
      HitAfterRun(files, know, model, batchSize, maxBatches, f);
      if i < k {
        assert f == pending[..k][i];
        FullyRead(batches, model, f);
      } else {
        assert f !in pending[..k];
        NotReadOutside(batches, model, f);
      }
    }
    PendingOfPending(files, know, later);
    PendingTail(pending, later, k);
  }

  lemma TakenCount(n: nat, chunks: nat, size: nat, max: nat)
    requires size > 0 && n <= chunks * size < n + size
    ensures Min(Min(max, chunks) * size, n) == Min(size * max, n)
  {
    if max >= chunks {
      assert max * size >= chunks * size;
    } else {
      assert Min(max, chunks) * size == size * max;
    }
  }

  lemma FullyRead(batches: seq<seq<SourceFile>>, model: Model, f: SourceFile)
    requires FullyAnswering(model) && f in Flatten(batches)
    ensures Read(batches, |batches|, model, f)
  {
    var k := InSomeBatch(batches, f);
    assert model(k, batches[k]).Some? && model(k, batches[k]).value(f) != "";
  }

  /** The cache after several runs over unchanged files. */
  function AfterRuns(files: seq<SourceFile>, know: Knowledge, models: nat -> Model, batchSize: nat, maxBatches: nat,
                     runs: nat): Knowledge
    requires batchSize > 0
  {
    if runs == 0 then know
    else RunKnowledge(files, AfterRuns(files, know, models, batchSize, maxBatches, runs - 1), models(runs - 1),
        batchSize, maxBatches)
  }

  lemma DropTwice(s: seq<SourceFile>, a: nat, b: nat)
    ensures var rest := s[Min(a, |s|)..]; rest[Min(b, |rest|)..] == s[Min(a + b, |s|)..]
  {
  }

  lemma OneMoreRun(runs: nat, step: nat)
    requires runs > 0
    ensures Times(runs, step) == Times(runs - 1, step) + step
  {
    OneMore(runs - 1, step);
  }

  /** Fully answered runs over n pending files leave nothing pending as soon as
      runs * batchSize * maxBatches reaches n, and never read a file twice before. */
  lemma {:induction false} RunsFinish(files: seq<SourceFile>, know: Knowledge, models: nat -> Model, batchSize: nat,
                                      maxBatches: nat, runs: nat)
    requires batchSize > 0 && DistinctPaths(files) && forall r: nat :: FullyAnswering(models(r))
    ensures var pending := PendingFiles(files, know);
            PendingFiles(files, AfterRuns(files, know, models, batchSize, maxBatches, runs))
              == pending[Min(Times(runs, Times(batchSize, maxBatches)), |pending|)..]
    decreases runs
  {
    hide PendingFiles, RunKnowledge, FullyAnswering, DistinctPaths;
    var pending, step := PendingFiles(files, know), Times(batchSize, maxBatches);
    if runs == 0 {
      assert pending[0..] == pending;
    } else {
      OneMoreRun(runs, step);
      DropTwice(pending, Times(runs - 1, step), step);
      RunsFinish(files, know, models, batchSize, maxBatches, runs - 1);
      FullRunAdvances(files, AfterRuns(files, know, models, batchSize, maxBatches, runs - 1), models(runs - 1),
          batchSize, maxBatches);
    }
  }
}
