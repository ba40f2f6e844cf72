/** The company messenger: an append-only log of messages, reactions and deletions per channel,
    folded into the list of messages each time it is read. */
module ChatLog {
  import opened Wrappers
  import opened Ordering

  datatype Record =
    | Message(id: string, authorId: string, text: string)
    | Reaction(targetId: string, reactor: string, emoji: string)
    | Delete(targetId: string, deleter: string)

  type Reactions = map<string, seq<string>>

  datatype Folded = Folded(id: string, authorId: string, text: string, reactions: Reactions)

  datatype Fold = Fold(messages: map<string, Folded>, order: seq<string>)

  /** One reaction event: the user joins or leaves the sorted list under the emoji, and an
      empty list disappears. */
  function Toggle(reactions: Reactions, emoji: string, author: string): Reactions {
    var users := Elements(if emoji in reactions then reactions[emoji] else []);
    var toggled := if author in users then users - {author} else users + {author};
    if toggled == {} then map e | e in reactions && e != emoji :: reactions[e] else reactions[emoji := Sorted(toggled)]
  }

  function Absorb(fold: Fold, r: Record): Fold {
    match r
    case Message(id, author, text) =>
      if id == "" then fold else Fold(fold.messages[id := Folded(id, author, text, map[])], fold.order + [id])
    case Reaction(target, author, emoji) =>
      if target !in fold.messages then fold
      else
        var m := fold.messages[target];
        fold.(messages := fold.messages[target := m.(reactions := Toggle(m.reactions, emoji, author))])
    case Delete(target, _) => fold.(messages := map id | id in fold.messages && id != target :: fold.messages[id])
  }

  function FoldLog(log: seq<Record>): Fold {
    if log == [] then Fold(map[], []) else Absorb(FoldLog(log[..|log| - 1]), log[|log| - 1])
  }

  /** `[messages[mid] for mid in order if mid in messages]`. */
  function Select(messages: map<string, Folded>, order: seq<string>): seq<Folded> {
    if order == [] then []
    else
      var last := order[|order| - 1];
      Select(messages, order[..|order| - 1]) + if last in messages then [messages[last]] else []
  }

  /** The messages a channel shows. */
  function Listing(log: seq<Record>): seq<Folded> {
    Select(FoldLog(log).messages, FoldLog(log).order)
  }

  method FoldedMessages(log: seq<Record>) returns (shown: seq<Folded>)
    ensures shown == Listing(log)
  {
    var messages: map<string, Folded> := map[];
    var order: seq<string> := [];
    for n := 0 to |log|
      invariant Fold(messages, order) == FoldLog(log[..n])
    {
      assert log[..n + 1][..n] == log[..n];
      match log[n] {
        case Message(id, author, text) =>
          if id != "" {
            messages := messages[id := Folded(id, author, text, map[])];
            order := order + [id];
          }
        case Reaction(target, author, emoji) =>
          if target in messages {
            var m := messages[target];
            messages := messages[target := m.(reactions := Toggle(m.reactions, emoji, author))];
          }
        case Delete(target, _) =>
          messages := map id | id in messages && id != target :: messages[id];
      }
    }
    assert log[..|log|] == log;
    shown := Select(messages, order);
  }

  // ----- What the log says, without folding it -----

  /** The log of one channel never uses a message id twice, and never a blank one. */
  ghost predicate UniqueIds(log: seq<Record>) {
    && (forall i | 0 <= i < |log| && log[i].Message? :: log[i].id != "")
    && (forall i, j | 0 <= i < j < |log| && log[i].Message? && log[j].Message? :: log[i].id != log[j].id)
  }

  /** Record i of the first n is a message that none of them deletes later. */
  predicate VisibleAt(log: seq<Record>, n: nat, i: nat)
    requires n <= |log|
  {
    i < n && log[i].Message? && forall j | i < j < n :: !(log[j].Delete? && log[j].targetId == log[i].id)
  }

  /** How often, in the first n records, the user sent this reaction to message i after it was posted. */
  function Toggles(log: seq<Record>, n: nat, i: nat, user: string, emoji: string): nat
    requires i < n <= |log| && log[i].Message?
  {
    if n == i + 1 then 0
    else Toggles(log, n - 1, i, user, emoji) + if log[n - 1] == Reaction(log[i].id, user, emoji) then 1 else 0
  }

  predicate Reacts(reactions: Reactions, user: string, emoji: string) {
    emoji in reactions && user in reactions[emoji]
  }

  /** Lists of users are sorted, free of duplicates and never empty. */
  ghost predicate TidyReactions(reactions: Reactions) {
    forall e | e in reactions :: reactions[e] != [] && Ascending(reactions[e])
  }

  /** What the first n records make of message i. */
  ghost predicate MessageOk(log: seq<Record>, n: nat, i: nat, m: Folded)
    requires i < n <= |log| && log[i].Message?
  {
    && m.id == log[i].id && m.authorId == log[i].authorId && m.text == log[i].text
    && TidyReactions(m.reactions)
    && forall user, emoji :: Reacts(m.reactions, user, emoji) <==> Toggles(log, n, i, user, emoji) % 2 == 1
  }

  function MessageIds(log: seq<Record>, n: nat): seq<string>
    requires n <= |log|
  {
    if n == 0 then []
    else MessageIds(log, n - 1) + if log[n - 1].Message? then [log[n - 1].id] else []
  }

  /** The positions of the messages that are still shown, in log order. */
  function Shown(log: seq<Record>, n: nat): seq<nat>
    requires n <= |log|
  {
    if n == 0 then []
    else Shown(log, n - 1) + if VisibleAt(log, |log|, n - 1) then [n - 1] else []
  }

  // ----- Toggling -----

  lemma ToggleMeaning(reactions: Reactions, emoji: string, author: string)
    requires TidyReactions(reactions)
    ensures TidyReactions(Toggle(reactions, emoji, author))
    ensures forall u, e :: Reacts(Toggle(reactions, emoji, author), u, e) <==>
                           Reacts(reactions, u, e) != (u == author && e == emoji)
  {
    hide Sorted, Leq;
    var users := Elements(if emoji in reactions then reactions[emoji] else []);
    var toggled := if author in users then users - {author} else users + {author};
    var after := Toggle(reactions, emoji, author);
    SortedIsAscending(toggled);
    forall u ensures u in Sorted(toggled) <==> u in toggled {
      assert u in Elements(Sorted(toggled)) <==> u in Sorted(toggled);
    }
    if toggled != {} {
      var u :| u in toggled;
      assert u in Sorted(toggled);
    }
    forall u, e ensures Reacts(after, u, e) <==> Reacts(reactions, u, e) != (u == author && e == emoji) {
      if e == emoji {
        assert Reacts(reactions, u, emoji) <==> u in users;
        assert Reacts(after, u, emoji) <==> u in toggled;
      }
    }
  }

  lemma SameReactions(a: Reactions, b: Reactions)
    requires TidyReactions(a) && TidyReactions(b)
    requires forall u, e :: Reacts(a, u, e) <==> Reacts(b, u, e)
    ensures a == b
  {
    forall e ensures e in a <==> e in b {
      if e in a { assert Reacts(a, a[e][0], e); }
      if e in b { assert Reacts(b, b[e][0], e); }
    }
    forall e | e in a ensures a[e] == b[e] {
      forall u ensures u in Elements(a[e]) <==> u in Elements(b[e]) {
        assert Reacts(a, u, e) <==> Reacts(b, u, e);
      }
      AscendingIsUnique(a[e], b[e]);
    }
  }

  /** Sending a reaction twice takes it back. */
  lemma ToggleTwice(reactions: Reactions, emoji: string, author: string)
    requires TidyReactions(reactions)
    ensures Toggle(Toggle(reactions, emoji, author), emoji, author) == reactions
  {
    var once := Toggle(reactions, emoji, author);
    ToggleMeaning(reactions, emoji, author);
    ToggleMeaning(once, emoji, author);
    SameReactions(Toggle(once, emoji, author), reactions);
  }

  // ----- Folding is what the log says -----

  ghost predicate FoldOk(log: seq<Record>, n: nat, fold: Fold)
    requires n <= |log|
  {
    && fold.order == MessageIds(log, n)
    && (forall id | id in fold.messages :: exists i: nat :: VisibleAt(log, n, i) && log[i].id == id)
    && (forall i: nat | VisibleAt(log, n, i) ::
        log[i].id in fold.messages && MessageOk(log, n, i, fold.messages[log[i].id]))
  }

  /** One more record that deletes nothing: the same messages stay visible. */
  lemma VisibleNext(log: seq<Record>, n: nat, i: nat)
    requires n < |log|
    ensures i < n ==>
        (VisibleAt(log, n + 1, i) <==> VisibleAt(log, n, i) && !(log[n].Delete? && log[n].targetId == log[i].id))
    ensures VisibleAt(log, n + 1, n) <==> log[n].Message?
  {
  }

  lemma MessageStep(log: seq<Record>, n: nat, i: nat, m: Folded)
    requires i < n < |log| && log[i].Message? && MessageOk(log, n, i, m)
    ensures var r := log[n];
            var mine := r.Reaction? && r.targetId == log[i].id;
            MessageOk(log, n + 1, i, if mine then m.(reactions := Toggle(m.reactions, r.emoji, r.reactor)) else m)
  {
    hide Toggle;
    var r := log[n];
    if r.Reaction? && r.targetId == log[i].id { ToggleMeaning(m.reactions, r.emoji, r.reactor); }
  }

  lemma {:induction false} StepOk(log: seq<Record>, n: nat, fold: Fold)
    requires n < |log| && UniqueIds(log) && FoldOk(log, n, fold)
    ensures FoldOk(log, n + 1, Absorb(fold, log[n]))
  {
    hide MessageOk, Toggle;
    var r, after := log[n], Absorb(fold, log[n]);
    forall i: nat | VisibleAt(log, n + 1, i)
      ensures log[i].id in after.messages && MessageOk(log, n + 1, i, after.messages[log[i].id])
    {
      VisibleNext(log, n, i);
      if i < n {
        MessageStep(log, n, i, fold.messages[log[i].id]);
      } else {
        NewMessageOk(log, n);
      }
    }
    forall id | id in after.messages ensures exists i: nat :: VisibleAt(log, n + 1, i) && log[i].id == id {
      if r.Message? && id == r.id {
        VisibleNext(log, n, n);
      } else {
        assert id in fold.messages;
        var i: nat :| VisibleAt(log, n, i) && log[i].id == id;
        VisibleNext(log, n, i);
      }
    }
  }

  lemma NewMessageOk(log: seq<Record>, n: nat)
    requires n < |log| && log[n].Message?
    ensures MessageOk(log, n + 1, n, Folded(log[n].id, log[n].authorId, log[n].text, map[]))
  {
  }

  lemma {:induction false} FoldIsOk(log: seq<Record>, n: nat)
    requires n <= |log| && UniqueIds(log)
    ensures FoldOk(log, n, FoldLog(log[..n]))
    decreases n
  {
    hide FoldOk;
    if n == 0 {
      EmptyFoldOk(log);
    } else {
      FoldIsOk(log, n - 1);
      StepOk(log, n - 1, FoldLog(log[..n - 1]));
      assert log[..n][..n - 1] == log[..n - 1];
    }
  }

  lemma EmptyFoldOk(log: seq<Record>)
    ensures FoldOk(log, 0, Fold(map[], []))
  {
  }

  lemma SameMessage(log: seq<Record>, i: nat, j: nat)
    requires UniqueIds(log) && i < |log| && j < |log| && log[i].Message? && log[j].Message? && log[i].id == log[j].id
    ensures i == j
  {
  }

  /** A message is in the folded map exactly when it is visible, and is then what the log says. */
  lemma FoldedIsVisible(log: seq<Record>, i: nat, messages: map<string, Folded>)
    requires i < |log| && log[i].Message? && UniqueIds(log)
    requires FoldOk(log, |log|, Fold(messages, MessageIds(log, |log|)))
    ensures log[i].id in messages <==> VisibleAt(log, |log|, i)
    ensures VisibleAt(log, |log|, i) ==> MessageOk(log, |log|, i, messages[log[i].id])
  {
    hide MessageOk, UniqueIds;
    if log[i].id in messages {
      var j: nat :| VisibleAt(log, |log|, j) && log[j].id == log[i].id;
      SameMessage(log, j, i);
    }
  }

  /** The shown messages are the ones at the shown positions. */
  ghost predicate ShowsAt(log: seq<Record>, n: nat, out: seq<Folded>, at: seq<nat>) {
    |out| == |at| && forall k | 0 <= k < |out| ::
      at[k] < n <= |log| && VisibleAt(log, |log|, at[k]) && MessageOk(log, |log|, at[k], out[k])
  }

  lemma ShowsOneMore(log: seq<Record>, n: nat, out: seq<Folded>, at: seq<nat>, shown: seq<Folded>)
    requires n < |log| && ShowsAt(log, n, out, at)
    requires if VisibleAt(log, |log|, n) then |shown| == 1 && MessageOk(log, |log|, n, shown[0]) else shown == []
    ensures ShowsAt(log, n + 1, out + shown, at + if VisibleAt(log, |log|, n) then [n] else [])
  {
    hide MessageOk;
  }

  /** What record n adds to the selection. */
  function Added(log: seq<Record>, n: nat, messages: map<string, Folded>): seq<Folded>
    requires n < |log|
  {
    if log[n].Message? && log[n].id in messages then [messages[log[n].id]] else []
  }

  lemma SelectOneMore(log: seq<Record>, n: nat, messages: map<string, Folded>)
    requires n < |log|
    ensures Select(messages, MessageIds(log, n + 1)) == Select(messages, MessageIds(log, n)) + Added(log, n, messages)
  {
    var ids := MessageIds(log, n);
    if log[n].Message? {
      assert MessageIds(log, n + 1)[..|ids|] == ids;
    } else {
      assert MessageIds(log, n + 1) == ids && Select(messages, ids) + [] == Select(messages, ids);
    }
  }

  lemma AddedIsShown(log: seq<Record>, n: nat, messages: map<string, Folded>)
    requires n < |log| && UniqueIds(log) && FoldOk(log, |log|, Fold(messages, MessageIds(log, |log|)))
    ensures var shown := Added(log, n, messages);
            if VisibleAt(log, |log|, n) then |shown| == 1 && MessageOk(log, |log|, n, shown[0]) else shown == []
  {
    hide MessageOk, UniqueIds, FoldOk;
    if log[n].Message? { FoldedIsVisible(log, n, messages); }
  }

  lemma {:induction false} SelectShows(log: seq<Record>, n: nat, messages: map<string, Folded>)
    requires n <= |log| && UniqueIds(log) && FoldOk(log, |log|, Fold(messages, MessageIds(log, |log|)))
    ensures ShowsAt(log, n, Select(messages, MessageIds(log, n)), Shown(log, n))
    decreases n
  {
    hide MessageOk, UniqueIds, FoldOk, ShowsAt, VisibleAt, Select, MessageIds, Added;
    if n == 0 {
      ShowsNothing(log, messages);
    } else {
      SelectShows(log, n - 1, messages);
      SelectOneMore(log, n - 1, messages);
      AddedIsShown(log, n - 1, messages);
      ShowsOneMore(log, n - 1, Select(messages, MessageIds(log, n - 1)), Shown(log, n - 1),
          Added(log, n - 1, messages));
    }
  }

  lemma ShowsNothing(log: seq<Record>, messages: map<string, Folded>)
    ensures ShowsAt(log, 0, Select(messages, MessageIds(log, 0)), Shown(log, 0))
  {
  }

  /** With unique ids the list shows exactly the messages that nothing later deletes, in log
      order, and under each emoji exactly the users whose reactions to that message, sent
      after it, are odd in number: sorted, without duplicates, never an empty list. */
  lemma ListingMeaning(log: seq<Record>)
    requires UniqueIds(log)
    ensures |Listing(log)| == |Shown(log, |log|)|
    ensures forall k | 0 <= k < |Listing(log)| ::
      var i := Shown(log, |log|)[k];
      i < |log| && VisibleAt(log, |log|, i) && MessageOk(log, |log|, i, Listing(log)[k])
  {
    hide MessageOk, Select, Shown;
    FoldIsOk(log, |log|);
    assert log[..|log|] == log;
    SelectShows(log, |log|, FoldLog(log).messages);
  }

  lemma {:induction false} ShownMeaning(log: seq<Record>, n: nat)
    requires n <= |log|
    ensures forall k | 0 <= k < |Shown(log, n)| :: Shown(log, n)[k] < n
    ensures forall j, k | 0 <= j < k < |Shown(log, n)| :: Shown(log, n)[j] < Shown(log, n)[k]
    ensures forall i: nat :: i in Shown(log, n) <==> i < n && VisibleAt(log, |log|, i)
    decreases n
  {
    if n > 0 { ShownMeaning(log, n - 1); }
  }

  /** Fold of a log with one more record. */
  lemma FoldSnoc(log: seq<Record>, r: Record)
    ensures FoldLog(log + [r]) == Absorb(FoldLog(log), r)
  {
    assert (log + [r])[..|log|] == log;
  }

  /** Sending the same reaction twice in a row leaves the list as it was. */
  lemma ReactingTwiceIsNothing(log: seq<Record>, target: string, author: string, emoji: string)
    requires UniqueIds(log)
    ensures Listing(log + [Reaction(target, author, emoji), Reaction(target, author, emoji)]) == Listing(log)
  {
    hide Toggle, MessageOk;
    var r, fold := Reaction(target, author, emoji), FoldLog(log);
    FoldSnoc(log, r);
    FoldSnoc(log + [r], r);
    assert log + [r, r] == log + [r] + [r];
    FoldIsOk(log, |log|);
    assert log[..|log|] == log;
    if target in fold.messages {
      var i: nat :| VisibleAt(log, |log|, i) && log[i].id == target;
      assert MessageOk(log, |log|, i, fold.messages[target]);
      MessageIsTidy(log, i, fold.messages[target]);
      ToggleTwice(fold.messages[target].reactions, emoji, author);
      assert FoldLog(log + [r, r]).messages == fold.messages;
    }
  }

  lemma MessageIsTidy(log: seq<Record>, i: nat, m: Folded)
    requires i < |log| && log[i].Message? && MessageOk(log, |log|, i, m)
    ensures TidyReactions(m.reactions)
  {
  }

  // ----- Reading -----

  /** `records[-limit:]`: the last `limit` records; all of them for 0; for a negative limit,
      all but the first `-limit`. */
  function LastRecords(records: seq<Folded>, limit: int): seq<Folded> {
    if limit == 0 then records
    else if limit > 0 then (if limit <= |records| then records[|records| - limit..] else records)
    else if -limit <= |records| then records[-limit..] else []
  }

  /** What follows the first record with this id. */
  function FirstWith(records: seq<Folded>, id: string): Option<seq<Folded>> {
    if records == [] then None
    else if records[0].id == id then Some(records[1..])
    else FirstWith(records[1..], id)
  }

  function NewerThan(records: seq<Folded>, afterId: string): seq<Folded> {
    if afterId == "" then records
    else match FirstWith(records, afterId) case Some(rest) => rest case None => records
  }

  /** What a reader who saw the message with this id has not seen: what follows its first
      occurrence, or everything if no id is given or it is not shown. */
  ghost predicate Newer(records: seq<Folded>, afterId: string, newer: seq<Folded>) {
    if afterId == "" || (forall m | m in records :: m.id != afterId) then newer == records
    else exists k | 0 <= k < |records| ::
           records[k].id == afterId && (forall j | 0 <= j < k :: records[j].id != afterId) && newer == records[k + 1..]
  }

  lemma NewerOnlyOne(records: seq<Folded>, afterId: string, a: seq<Folded>, b: seq<Folded>)
    requires Newer(records, afterId, a) && Newer(records, afterId, b)
    ensures a == b
  {
    if afterId != "" && exists m | m in records :: m.id == afterId {
      var i :| 0 <= i < |records| && records[i].id == afterId && (forall j | 0 <= j < i :: records[j].id != afterId)
               && a == records[i + 1..];
      var k :| 0 <= k < |records| && records[k].id == afterId && (forall j | 0 <= j < k :: records[j].id != afterId)
               && b == records[k + 1..];
      assert i == k;
    }
  }

  lemma ListedIdsAreUnique(log: seq<Record>)
    requires UniqueIds(log)
    ensures forall j, k | 0 <= j < k < |Listing(log)| :: Listing(log)[j].id != Listing(log)[k].id
    ensures forall k | 0 <= k < |Listing(log)| :: Listing(log)[k].id != ""
  {
    hide Listing, Shown;
    ListingMeaning(log);
    ShownMeaning(log, |log|);
    var at := Shown(log, |log|);
    forall j, k | 0 <= j < k < |Listing(log)| ensures Listing(log)[j].id != Listing(log)[k].id {
      assert at[j] < at[k];
      assert log[at[j]].id != log[at[k]].id;
    }
  }

  lemma {:induction false} FirstWithIs(records: seq<Folded>, k: nat)
    requires k < |records| && forall j | 0 <= j < k :: records[j].id != records[k].id
    ensures FirstWith(records, records[k].id) == Some(records[k + 1..])
    decreases k
  {
    if k > 0 { FirstWithIs(records[1..], k - 1); }
  }

  /** Asking for what is newer than a shown message yields exactly the messages behind it. */
  lemma NewerThanShown(log: seq<Record>, k: nat)
    requires UniqueIds(log) && k < |Listing(log)|
    ensures NewerThan(Listing(log), Listing(log)[k].id) == Listing(log)[k + 1..]
  {
    hide Listing;
    ListedIdsAreUnique(log);
    FirstWithIs(Listing(log), k);
  }

  // ----- The channel -----

  /** A deletion was asked for by the author of the message it names. */
  ghost predicate OwnDeletions(log: seq<Record>) {
    forall j | 0 <= j < |log| && log[j].Delete? ::
      exists i | 0 <= i < j :: log[i].Message? && log[i].id == log[j].targetId && log[i].authorId == log[j].deleter
  }

  /** A message that is no longer shown was deleted by its own author. */
  lemma OnlyAuthorsDelete(log: seq<Record>, i: nat)
    requires UniqueIds(log) && OwnDeletions(log)
    requires i < |log| && log[i].Message? && !VisibleAt(log, |log|, i)
    ensures exists j | i < j < |log| :: log[j] == Delete(log[i].id, log[i].authorId)
  {
    var j :| i < j < |log| && log[j].Delete? && log[j].targetId == log[i].id;
    var m :| 0 <= m < j && log[m].Message? && log[m].id == log[j].targetId && log[m].authorId == log[j].deleter;
    assert m == i;
    assert log[j] == Delete(log[i].id, log[i].authorId);
  }

  lemma ShownIsPosted(log: seq<Record>, k: nat) returns (i: nat)
    requires UniqueIds(log) && k < |Listing(log)|
    ensures i < |log| && log[i] == Message(Listing(log)[k].id, Listing(log)[k].authorId, Listing(log)[k].text)
  {
    ListingMeaning(log);
    i := Shown(log, |log|)[k];
  }

  class ChatChannel {
    var log: seq<Record>

    ghost predicate Valid()
      reads this
    {
      UniqueIds(log) && OwnDeletions(log)
    }

    constructor ()
      ensures Valid() && log == []
    {
      log := [];
    }

    /** Message ids are generated; the new one is not blank and not in use. */
    method AppendMessage(id: string, authorId: string, text: string)
      requires Valid() && id != "" && forall r | r in log :: r.Message? ==> r.id != id
      modifies this
      ensures Valid() && log == old(log) + [Message(id, authorId, text)]
    {
      log := log + [Message(id, authorId, text)];
      assert forall i | 0 <= i < |old(log)| :: log[i] == old(log)[i] && old(log)[i] in old(log);
    }

    method ToggleReaction(messageId: string, authorId: string, emoji: string)
      requires Valid()
      modifies this
      ensures Valid() && log == old(log) + [Reaction(messageId, authorId, emoji)]
    {
      log := log + [Reaction(messageId, authorId, emoji)];
      assert forall i | 0 <= i < |old(log)| :: log[i] == old(log)[i];
    }

    /** Deletes exactly when the message is shown and its author asks. */
    method DeleteMessage(messageId: string, authorId: string) returns (deleted: bool)
      requires Valid()
      modifies this
      ensures Valid()
      ensures deleted <==> exists m :: m in Listing(old(log)) && m.id == messageId && m.authorId == authorId
      ensures log == if deleted then old(log) + [Delete(messageId, authorId)] else old(log)
    {
      hide Listing;
      var records := FoldedMessages(log);
      var k := 0;
      while k < |records| && records[k].id != messageId
        invariant k <= |records| && forall j | 0 <= j < k :: records[j].id != messageId
      {
        k := k + 1;
      }
      ListedIdsAreUnique(log);
      if k == |records| || records[k].authorId != authorId { return false; }
      ghost var i := ShownIsPosted(log, k);
      assert records[k] in records;
      log := log + [Delete(messageId, authorId)];
      assert forall j | 0 <= j < |old(log)| :: log[j] == old(log)[j];
      assert log[i].Message?;
      return true;
    }

    /** The last `limit` of the messages shown after the one with this id, or of all of them
        if it is blank or not shown. */
    method ListMessages(limit: int, afterId: string) returns (page: seq<Folded>)
      ensures page == LastRecords(NewerThan(Listing(log), afterId), limit)
      ensures exists newer ::
        && Newer(Listing(log), afterId, newer)
        && (limit == 0 ==> page == newer)
        && (limit > 0 ==> |page| == (if limit < |newer| then limit else |newer|) && page == newer[|newer| - |page|..])
        && (limit < 0 ==> page == if -limit <= |newer| then newer[-limit..] else [])
    {
      hide Listing;
      var records := FoldedMessages(log);
      if afterId != "" {
        for index := 0 to |records|
          invariant FirstWith(records, afterId) == FirstWith(records[index..], afterId)
          invariant forall j | 0 <= j < index :: records[j].id != afterId
        {
          if records[index].id == afterId {
            assert records[index..][1..] == records[index + 1..];
            assert Newer(records, afterId, records[index + 1..]);
            return LastRecords(records[index + 1..], limit);
          }
          assert records[index..][1..] == records[index + 1..];
        }
      }
      assert Newer(records, afterId, records);
      page := LastRecords(records, limit);
    }
  }
}
