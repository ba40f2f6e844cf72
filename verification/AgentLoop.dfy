/** The self-correction loop of the agents, once as a hand-written loop and once as a routed
    graph of nodes. */
module AgentLoop {
  import opened Wrappers

  datatype State = State(issue: string, astSummary: string, relatedLogs: seq<string>, operationsMemory: string,
                         workspec: string, targetModules: seq<string>, developerMd: string, diff: string,
                         reviewMd: string, reviewVerdict: string, suggestedFix: string, iteration: int)

  datatype PmOutput = PmOutput(modules: seq<string>, rationale: string)
  datatype DevOutput = DevOutput(thought: string, unifiedDiff: string)
  datatype Review = Review(verdict: string, findings: string, suggestedFix: string)

  /** The agents are arbitrary; developer and reviewer may answer each call differently. */
  datatype Agents = Agents(
    pm: (string, string, seq<string>, string) -> PmOutput,
    developer: (nat, string, string, string, Option<string>) -> DevOutput,
    reviewer: (nat, string, string, string) -> Review)

  const NEEDS_FIX := "needs_fix"

  function NodePm(a: Agents, s: State): State {
    var out := a.pm(s.issue, s.astSummary, s.relatedLogs, s.operationsMemory);
    s.(targetModules := out.modules, workspec := out.rationale, iteration := 0)
  }

  /** What the developer is told of the previous review; nothing if it suggested no fix. */
  function PreviousReview(s: State): Option<string> {
    if s.suggestedFix == "" then None else Some(s.suggestedFix)
  }

  function NodeDeveloper(a: Agents, s: State, call: nat): State {
    var out := a.developer(call, s.workspec, s.astSummary, s.operationsMemory, PreviousReview(s));
    s.(developerMd := out.thought, diff := out.unifiedDiff, iteration := s.iteration + 1)
  }

  function NodeReviewer(a: Agents, s: State, call: nat): State {
    var rv := a.reviewer(call, s.workspec, s.operationsMemory, s.diff);
    s.(reviewVerdict := rv.verdict, reviewMd := rv.findings, suggestedFix := rv.suggestedFix)
  }

  /** The state after the manager and n rounds of developer and reviewer. */
  function Rounds(a: Agents, s: State, n: nat): State {
    if n == 0 then NodePm(a, s) else NodeReviewer(a, NodeDeveloper(a, Rounds(a, s, n - 1), n - 1), n - 1)
  }

  /** Round n is the last one: the reviewer does not ask for a fix, or the cap is reached. */
  predicate Stops(a: Agents, s: State, cap: int, n: nat) {
    n >= 1 && (Rounds(a, s, n).reviewVerdict != NEEDS_FIX || n >= cap)
  }

  /** The number of rounds a run takes. */
  ghost predicate RunsFor(a: Agents, s: State, cap: int, n: nat) {
    Stops(a, s, cap, n) && forall k: nat | k < n :: !Stops(a, s, cap, k)
  }

  /** The last round is the first one that asks for no fix or reaches the cap. */
  lemma RunsForMeaning(a: Agents, s: State, cap: int, n: nat)
    requires RunsFor(a, s, cap, n)
    ensures n >= 1 && (Rounds(a, s, n).reviewVerdict != "needs_fix" || n >= cap)
    ensures forall k: nat | 1 <= k < n :: Rounds(a, s, k).reviewVerdict == "needs_fix" && k < cap
  {
    forall k: nat | 1 <= k < n ensures Rounds(a, s, k).reviewVerdict == "needs_fix" && k < cap {
      assert !Stops(a, s, cap, k);
    }
  }

  lemma {:induction false} RoundsIteration(a: Agents, s: State, n: nat)
    ensures Rounds(a, s, n).iteration == n
    decreases n
  {
    if n > 0 { RoundsIteration(a, s, n - 1); }
  }

  lemma RoundIs(a: Agents, s: State, n: nat)
    ensures Rounds(a, s, 0) == NodePm(a, s)
    ensures Rounds(a, s, n + 1) == NodeReviewer(a, NodeDeveloper(a, Rounds(a, s, n), n), n)
  {
    hide NodePm, NodeDeveloper, NodeReviewer;
  }

  /** The manager's round: modules and rationale are its answer to the issue, the count starts. */
  lemma FirstRound(a: Agents, s: State)
    ensures var pm := a.pm(s.issue, s.astSummary, s.relatedLogs, s.operationsMemory);
            Rounds(a, s, 0) == State(s.issue, s.astSummary, s.relatedLogs, s.operationsMemory, pm.rationale, pm.modules,
                                     s.developerMd, s.diff, s.reviewMd, s.reviewVerdict, s.suggestedFix, 0)
  {
  }

  /** Every further round: the developer is told the fix suggested before, if there is one, and
      the reviewer sees the developer's diff. */
  lemma NextRound(a: Agents, s: State, n: nat)
    ensures var was := Rounds(a, s, n);
            var told := if was.suggestedFix == "" then None else Some(was.suggestedFix);
            var dev := a.developer(n, was.workspec, was.astSummary, was.operationsMemory, told);
            var rv := a.reviewer(n, was.workspec, was.operationsMemory, dev.unifiedDiff);
            Rounds(a, s, n + 1) == State(was.issue, was.astSummary, was.relatedLogs, was.operationsMemory, was.workspec,
                                         was.targetModules, dev.thought, dev.unifiedDiff, rv.findings, rv.verdict,
                                         rv.suggestedFix, was.iteration + 1)
  {
  }

  /** Each developer call was given the entry of `fed` that belongs to it: what the review before
      it suggested, and first what the state brought along. */
  ghost predicate FedToDeveloper(a: Agents, s: State, calls: nat, fed: seq<Option<string>>) {
    && |fed| == calls
    && forall k: nat | k < calls ::
         var was := Rounds(a, s, k);
         var dev := a.developer(k, was.workspec, was.astSummary, was.operationsMemory, fed[k]);
         && Rounds(a, s, k + 1).developerMd == dev.thought && Rounds(a, s, k + 1).diff == dev.unifiedDiff
         && (was.suggestedFix == "" ==> fed[k] == None) && (was.suggestedFix != "" ==> fed[k] == Some(was.suggestedFix))
  }

  lemma FedIsGiven(a: Agents, s: State, calls: nat, fed: seq<Option<string>>)
    requires |fed| == calls && forall k | 0 <= k < calls :: fed[k] == PreviousReview(Rounds(a, s, k))
    ensures FedToDeveloper(a, s, calls, fed)
  {
    hide Rounds;
    forall k: nat | k < calls { NextRound(a, s, k); }
  }

  /** The hand-written loop: on exhaustion it overwrites the verdict. `fed` lists what each call
      of the developer was told of the review before it. */
  method RunManual(a: Agents, s: State, cap: int) returns (result: State, calls: nat, fed: seq<Option<string>>)
    ensures RunsFor(a, s, cap, calls)
    ensures var last := Rounds(a, s, calls);
            result == if last.reviewVerdict == "needs_fix" then last.(reviewVerdict := "reject") else last
    ensures |fed| == calls && forall k | 0 <= k < calls :: fed[k] == PreviousReview(Rounds(a, s, k))
    ensures FedToDeveloper(a, s, calls, fed)
  {
    hide NodePm, NodeDeveloper, NodeReviewer, Rounds, FedToDeveloper;
    RoundIs(a, s, 0);
    result, calls, fed := NodePm(a, s), 0, [];
    while true
      invariant result == Rounds(a, s, calls)
      invariant forall k: nat | k <= calls :: !Stops(a, s, cap, k)
      invariant |fed| == calls && forall k | 0 <= k < calls :: fed[k] == PreviousReview(Rounds(a, s, k))
      decreases cap - calls
    {
      RoundIs(a, s, calls);
      fed := fed + [PreviousReview(result)];
      result := NodeDeveloper(a, result, calls);
      result := NodeReviewer(a, result, calls);
      calls := calls + 1;
      RoundsIteration(a, s, calls);
      FedIsGiven(a, s, calls, fed);
      if result.reviewVerdict != NEEDS_FIX { return; }
      if result.iteration >= cap {
        result := result.(reviewVerdict := "reject");
        return;
      }
    }
  }

  datatype NodeName = Pm | Developer | Reviewer | End

  /** The conditional edge behind the reviewer. */
  function Route(s: State, cap: int): NodeName {
    if s.reviewVerdict == NEEDS_FIX && s.iteration < cap then Developer else End
  }

  /** A bound on the nodes still to be run when `left` rounds remain before the cap. */
  ghost function NodesLeft(node: NodeName, left: int): nat {
    match node
    case Pm => (if left > 0 then 2 * left else 2) + 2
    case Developer => (if left > 1 then 2 * left else 2) + 1
    case Reviewer => (if left > 0 then 2 * left else 0) + 2
    case End => 0
  }

  /** The compiled graph: run the node, then follow its edge, until the end. */
  method RunRouted(a: Agents, s: State, cap: int) returns (result: State, calls: nat, fed: seq<Option<string>>)
    ensures RunsFor(a, s, cap, calls)
    ensures result == Rounds(a, s, calls)
    ensures |fed| == calls && forall k | 0 <= k < calls :: fed[k] == PreviousReview(Rounds(a, s, k))
    ensures FedToDeveloper(a, s, calls, fed)
  {
    hide NodePm, NodeDeveloper, NodeReviewer, Rounds, FedToDeveloper;
    result, calls, fed := s, 0, [];
    var node := Pm;
    while node != End
      invariant node.Pm? ==> calls == 0 && result == s
      invariant node.Developer? ==> result == Rounds(a, s, calls) && forall k: nat | k <= calls :: !Stops(a, s, cap, k)
      invariant node.Reviewer? ==> calls >= 1 && result == NodeDeveloper(a, Rounds(a, s, calls - 1), calls - 1)
                                   && forall k: nat | k < calls :: !Stops(a, s, cap, k)
      invariant node.End? ==> result == Rounds(a, s, calls) && RunsFor(a, s, cap, calls)
      invariant |fed| == calls && forall k | 0 <= k < calls :: fed[k] == PreviousReview(Rounds(a, s, k))
      decreases NodesLeft(node, cap - calls)
    {
      match node {
        case Pm =>
          RoundIs(a, s, 0);
          result := NodePm(a, result);
          node := Developer;
        case Developer =>
          fed := fed + [PreviousReview(result)];
          result := NodeDeveloper(a, result, calls);
          calls := calls + 1;
          node := Reviewer;
        case Reviewer =>
          RoundIs(a, s, calls - 1);
          result := NodeReviewer(a, result, calls - 1);
          RoundsIteration(a, s, calls);
          node := Route(result, cap);
      }
    }
    FedIsGiven(a, s, calls, fed);
  }

  lemma RunsForIsUnique(a: Agents, s: State, cap: int, m: nat, n: nat)
    requires RunsFor(a, s, cap, m) && RunsFor(a, s, cap, n)
    ensures m == n
  {
    hide Stops;
    assert m < n ==> !Stops(a, s, cap, m);
    assert n < m ==> !Stops(a, s, cap, n);
  }

  /** How the archive files a verdict. */
  function StatusOf(verdict: string): string {
    if verdict == "approve" then "proposed"
    else if verdict == NEEDS_FIX then "exhausted"
    else if verdict == "reject" then "rejected"
    else if verdict == "" then "proposed"
    else verdict
  }

  /** The three verdicts of a review and the missing one; any other verdict is its own status. */
  lemma StatusMeaning(verdict: string)
    ensures StatusOf("approve") == "proposed" && StatusOf("") == "proposed"
    ensures StatusOf("needs_fix") == "exhausted" && StatusOf("reject") == "rejected"
    ensures StatusOf(verdict) != verdict ==>
      verdict == "approve" || verdict == "" || verdict == "needs_fix" || verdict == "reject"
  {
  }

  /** Whatever meets the contracts of the two forms: both call the developer equally often with
      the same reviews fed back, and end in the same state but for the verdict when the cap is
      reached with a fix still asked for. Then the archive says "rejected" for one and
      "exhausted" for the other. */
  lemma FormsAgree(a: Agents, s: State, cap: int, m: nat, manual: State, mFed: seq<Option<string>>,
                   r: nat, routed: State, rFed: seq<Option<string>>)
    requires RunsFor(a, s, cap, m) && RunsFor(a, s, cap, r)
    requires var last := Rounds(a, s, m);
             manual == if last.reviewVerdict == NEEDS_FIX then last.(reviewVerdict := "reject") else last
    requires routed == Rounds(a, s, r)
    requires |mFed| == m && forall k | 0 <= k < m :: mFed[k] == PreviousReview(Rounds(a, s, k))
    requires |rFed| == r && forall k | 0 <= k < r :: rFed[k] == PreviousReview(Rounds(a, s, k))
    ensures m == r && mFed == rFed
    ensures manual.(reviewVerdict := "") == routed.(reviewVerdict := "")
    ensures StatusOf(manual.reviewVerdict) != StatusOf(routed.reviewVerdict) <==> routed.reviewVerdict == NEEDS_FIX
    ensures routed.reviewVerdict == NEEDS_FIX ==>
      StatusOf(manual.reviewVerdict) == "rejected" && StatusOf(routed.reviewVerdict) == "exhausted"
          && routed.iteration >= cap
  {
    RunsForIsUnique(a, s, cap, m, r);
    RoundsIteration(a, s, r);
  }
}
