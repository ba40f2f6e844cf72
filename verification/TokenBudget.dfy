/** Token usage: what is recorded per day, how it is summed up, and what the budget check
    guarantees when several calls are under way between their check and their record. */
module TokenBudget {
  import opened Wrappers
  import opened Sublists
  import opened Sums

  /** The day files of a month are named after month and day. */
  datatype Moment = Moment(month: int, day: int)

  predicate NotBefore(a: Moment, b: Moment) {
    a.month < b.month || (a.month == b.month && a.day <= b.day)
  }

  datatype Entry = Entry(provider: string, model: string, task: string, actor: string,
                         promptTokens: int, completionTokens: int, totalTokens: int, occurredAt: Moment)

  datatype Limits = Limits(enforced: bool, perRequest: int, daily: int, monthly: int)

  datatype Summary = Summary(dailyTotal: int, monthlyTotal: int, byProvider: map<string, int>,
                             byTask: map<string, int>, byActor: map<string, int>, recent: seq<Entry>)

  /** Which budget a call would break. */
  datatype Scope = PerRequest | Daily | Monthly

  function Max0(x: int): int {
    if x > 0 then x else 0
  }

  /** What `record` writes: negative counts are taken as zero. */
  function EntryFor(provider: string, model: string, task: string, actor: string, prompt: int, completion: int,
                    at: Moment): Entry {
    Entry(provider, model, task, actor, Max0(prompt), Max0(completion), Max0(prompt) + Max0(completion), at)
  }

  function OfDay(log: seq<Entry>, at: Moment): seq<Entry> {
    if log == [] then []
    else
      var last := log[|log| - 1];
      OfDay(log[..|log| - 1], at) + if last.occurredAt == at then [last] else []
  }

  function OfMonth(log: seq<Entry>, month: int): seq<Entry> {
    if log == [] then []
    else
      var last := log[|log| - 1];
      OfMonth(log[..|log| - 1], month) + if last.occurredAt.month == month then [last] else []
  }

  function Total(es: seq<Entry>): int {
    if es == [] then 0 else Total(es[..|es| - 1]) + es[|es| - 1].totalTokens
  }

  function DayTotal(log: seq<Entry>, at: Moment): int {
    Total(OfDay(log, at))
  }

  function MonthTotal(log: seq<Entry>, month: int): int {
    Total(OfMonth(log, month))
  }

  type NameOf = Entry -> string

  function OrUnknown(name: string): string {
    if name == "" then "unknown" else name
  }

  /** Totals per name, accumulated entry by entry. */
  function Breakdown(es: seq<Entry>, name: NameOf): map<string, int> {
    if es == [] then map[]
    else
      var last := es[|es| - 1];
      Plus(Breakdown(es[..|es| - 1], name), OrUnknown(name(last)), last.totalTokens)
  }

  function ByProvider(e: Entry): string { e.provider }
  function ByTask(e: Entry): string { e.task }
  function ByActor(e: Entry): string { e.actor }

  /** Every breakdown adds up to the total of its entries. */
  lemma {:induction false} BreakdownAddsUp(es: seq<Entry>, name: NameOf)
    ensures SumValues(Breakdown(es, name)) == Total(es)
    decreases |es|
  {
    if es != [] {
      var front, last := es[..|es| - 1], es[|es| - 1];
      BreakdownAddsUp(front, name);
      SumOfPlus(Breakdown(front, name), OrUnknown(name(last)), last.totalTokens);
    }
  }

  function WithName(es: seq<Entry>, name: NameOf, group: string): seq<Entry> {
    if es == [] then []
    else
      var last := es[|es| - 1];
      WithName(es[..|es| - 1], name, group) + if OrUnknown(name(last)) == group then [last] else []
  }

  lemma TotalSnoc(es: seq<Entry>, e: Entry)
    ensures Total(es + [e]) == Total(es) + e.totalTokens
  {
    assert (es + [e])[..|es|] == es;
  }

  lemma NoTotal()
    ensures Total([]) == 0
  {
  }

  /** Under each name a breakdown holds exactly the total of the entries with that name. */
  lemma {:induction false} BreakdownPerName(es: seq<Entry>, name: NameOf, group: string)
    ensures (if group in Breakdown(es, name) then Breakdown(es, name)[group] else 0) == Total(WithName(es, name, group))
    decreases |es|
  {
    hide Total, OrUnknown;
    if es == [] {
      NoTotal();
    } else {
      var front, last := es[..|es| - 1], es[|es| - 1];
      BreakdownPerName(front, name, group);
      TotalSnoc(WithName(front, name, group), last);
      assert WithName(front, name, group) + [] == WithName(front, name, group);
    }
  }

  /** A breakdown lists exactly the names that occur. */
  lemma {:induction false} BreakdownNames(es: seq<Entry>, name: NameOf, group: string)
    ensures group in Breakdown(es, name) <==> exists e :: e in es && OrUnknown(name(e)) == group
    decreases |es|
  {
    hide OrUnknown;
    if es != [] {
      BreakdownNames(es[..|es| - 1], name, group);
      assert es == es[..|es| - 1] + [es[|es| - 1]];
    }
  }

  /** Entries without a name are summed up as those named "unknown". */
  lemma NamelessIsUnknown(name: string)
    ensures OrUnknown("") == "unknown" && (name != "" ==> OrUnknown(name) == name)
  {
  }

  // ----- Days and months -----

  lemma {:induction false} DayKeeps(log: seq<Entry>, at: Moment)
    ensures Keeps(log, OfDay(log, at), (e: Entry) => e.occurredAt == at)
    decreases |log|
  {
    hide Keeps;
    var keep := (e: Entry) => e.occurredAt == at;
    if log == [] {
      KeepsNothing(keep);
    } else {
      var front, last := log[..|log| - 1], log[|log| - 1];
      DayKeeps(front, at);
      KeepsSnoc(front, OfDay(front, at), keep, last);
      assert log == front + [last];
    }
  }

  lemma {:induction false} MonthKeeps(log: seq<Entry>, month: int)
    ensures Keeps(log, OfMonth(log, month), (e: Entry) => e.occurredAt.month == month)
    decreases |log|
  {
    hide Keeps;
    var keep := (e: Entry) => e.occurredAt.month == month;
    if log == [] {
      KeepsNothing(keep);
    } else {
      var front, last := log[..|log| - 1], log[|log| - 1];
      MonthKeeps(front, month);
      KeepsSnoc(front, OfMonth(front, month), keep, last);
      assert log == front + [last];
    }
  }

  lemma NamesListed(log: seq<Entry>, e: Entry)
    requires e in log
    ensures var month := OfMonth(log, e.occurredAt.month);
            && OrUnknown(e.provider) in Breakdown(month, ByProvider) && OrUnknown(e.task) in Breakdown(month, ByTask)
            && OrUnknown(e.actor) in Breakdown(month, ByActor)
  {
    hide OfMonth, Breakdown, OrUnknown;
    var month := OfMonth(log, e.occurredAt.month);
    MonthKeeps(log, e.occurredAt.month);
    KeptMembers(log, month, (e': Entry) => e'.occurredAt.month == e.occurredAt.month);
    BreakdownNames(month, ByProvider, OrUnknown(e.provider));
    BreakdownNames(month, ByTask, OrUnknown(e.task));
    BreakdownNames(month, ByActor, OrUnknown(e.actor));
  }

  lemma {:induction false} NameKeeps(es: seq<Entry>, name: NameOf, group: string)
    ensures Keeps(es, WithName(es, name, group), (e: Entry) => OrUnknown(name(e)) == group)
    decreases |es|
  {
    hide OrUnknown, Keeps;
    var keep := (e: Entry) => OrUnknown(name(e)) == group;
    if es == [] {
      KeepsNothing(keep);
    } else {
      var front, last := es[..|es| - 1], es[|es| - 1];
      NameKeeps(front, name, group);
      KeepsSnoc(front, WithName(front, name, group), keep, last);
      assert es == front + [last];
    }
  }

  ghost predicate Counted(log: seq<Entry>) {
    forall e | e in log :: e.totalTokens >= 0
  }

  /** A day never exceeds its month, and no total is negative. */
  lemma {:induction false} DayWithinMonth(log: seq<Entry>, at: Moment)
    requires Counted(log)
    ensures 0 <= DayTotal(log, at) <= MonthTotal(log, at.month)
    decreases |log|
  {
    if log != [] {
      var front, last := log[..|log| - 1], log[|log| - 1];
      assert last in log;
      DayWithinMonth(front, at);
      TotalSnoc(OfDay(front, at), last);
      TotalSnoc(OfMonth(front, at.month), last);
      assert OfDay(front, at) + [] == OfDay(front, at) && OfMonth(front, at.month) + [] == OfMonth(front, at.month);
    }
  }

  lemma RecordTotals(log: seq<Entry>, e: Entry, at: Moment)
    ensures DayTotal(log + [e], at) == DayTotal(log, at) + if e.occurredAt == at then e.totalTokens else 0
    ensures MonthTotal(log + [e], at.month) ==
        MonthTotal(log, at.month) + if e.occurredAt.month == at.month then e.totalTokens else 0
  {
    assert (log + [e])[..|log|] == log;
    TotalSnoc(OfDay(log, at), e);
    TotalSnoc(OfMonth(log, at.month), e);
    assert OfDay(log, at) + [] == OfDay(log, at) && OfMonth(log, at.month) + [] == OfMonth(log, at.month);
  }

  /** Nothing is recorded on a day that has not begun. */
  lemma {:induction false} NothingYet(log: seq<Entry>, clock: Moment, at: Moment)
    requires NotBefore(clock, at) && forall e | e in log :: NotBefore(e.occurredAt, clock)
    ensures at != clock ==> DayTotal(log, at) == 0
    ensures at.month != clock.month ==> MonthTotal(log, at.month) == 0
    decreases |log|
  {
    if log != [] {
      var front := log[..|log| - 1];
      assert log[|log| - 1] in log;
      NothingYet(front, clock, at);
      assert OfDay(front, at) + [] == OfDay(front, at) && OfMonth(front, at.month) + [] == OfMonth(front, at.month);
    }
  }

  // ----- The check -----

  /** Which budget, if any, a call of this size would break: the first of the three. */
  function Verdict(limits: Limits, log: seq<Entry>, attempted: int, now: Moment): Option<Scope> {
    if !limits.enforced then None
    else if limits.perRequest > 0 && attempted > limits.perRequest then Some(PerRequest)
    else if limits.daily > 0 && DayTotal(log, now) + attempted > limits.daily then Some(Daily)
    else if limits.monthly > 0 && MonthTotal(log, now.month) + attempted > limits.monthly then Some(Monthly)
    else None
  }

  /** Whether one budget has room for the call; a budget that is not positive always has. */
  predicate HasRoom(limits: Limits, log: seq<Entry>, attempted: int, now: Moment, scope: Scope) {
    match scope
    case PerRequest => limits.perRequest > 0 ==> attempted <= limits.perRequest
    case Daily => limits.daily > 0 ==> DayTotal(log, now) + attempted <= limits.daily
    case Monthly => limits.monthly > 0 ==> MonthTotal(log, now.month) + attempted <= limits.monthly
  }

  lemma NoBreakdown()
    ensures forall name: NameOf :: Breakdown([], name) == map[]
  {
  }

  lemma BreakdownSnoc(es: seq<Entry>, n: nat, name: NameOf)
    requires n < |es|
    ensures Breakdown(es[..n + 1], name) == Plus(Breakdown(es[..n], name), OrUnknown(name(es[n])), es[n].totalTokens)
  {
    assert es[..n + 1][..n] == es[..n];
  }

  /** How many of n entries `[:limit]` keeps; a negative limit drops that many at the end. */
  function RecentCount(n: nat, limit: int): (r: nat)
    ensures r <= n
  {
    if limit >= 0 then (if n < limit then n else limit)
    else if -limit <= n then n + limit else 0
  }

  class TokenUsageStore {
    var limits: Limits
    var log: seq<Entry>

    constructor ()
      ensures limits == Limits(true, 16000, 200000, 4000000) && log == []
    {
      limits, log := Limits(true, 16000, 200000, 4000000), [];
    }

    method Record(provider: string, model: string, task: string, actor: string, prompt: int, completion: int,
                  now: Moment)
      returns (entry: Entry)
      modifies this`log
      ensures log == old(log) + [entry]
      ensures entry == Entry(provider, model, task, actor, if prompt < 0 then 0 else prompt,
                             if completion < 0 then 0 else completion,
                             (if prompt < 0 then 0 else prompt) + (if completion < 0 then 0 else completion), now)
      ensures old(Counted(log)) ==> Counted(log)
    {
      entry := EntryFor(provider, model, task, actor, prompt, completion, now);
      log := log + [entry];
    }

    method Summarize(now: Moment, recentLimit: int) returns (s: Summary)
      ensures s.dailyTotal == DayTotal(log, now) && s.monthlyTotal == MonthTotal(log, now.month)
      ensures SumValues(s.byProvider) == SumValues(s.byTask) == SumValues(s.byActor) == s.monthlyTotal
      ensures var month := OfMonth(log, now.month);
              s.byProvider == Breakdown(month, ByProvider) && s.byTask == Breakdown(month, ByTask)
                  && s.byActor == Breakdown(month, ByActor)
      ensures Counted(log) ==> s.dailyTotal <= s.monthlyTotal
      ensures forall e | e in log && e.occurredAt.month == now.month ::
        && (if e.provider == "" then "unknown" else e.provider) in s.byProvider
        && (if e.task == "" then "unknown" else e.task) in s.byTask
        && (if e.actor == "" then "unknown" else e.actor) in s.byActor
      ensures var day := |OfDay(log, now)|;
              |s.recent| == if recentLimit < 0 then (if day < -recentLimit then 0 else day + recentLimit)
                            else if recentLimit < day then recentLimit else day
      ensures forall k | 0 <= k < |s.recent| :: s.recent[k] == OfDay(log, now)[|OfDay(log, now)| - 1 - k]
    {
      hide OfMonth, OfDay, SumValues, Breakdown, Total;
      NoBreakdown();
      var daily, month := OfDay(log, now), OfMonth(log, now.month);
      var byProvider: map<string, int>, byTask: map<string, int>, byActor: map<string, int> := map[], map[], map[];
      for n := 0 to |month|
        invariant byProvider == Breakdown(month[..n], ByProvider)
        invariant byTask == Breakdown(month[..n], ByTask)
        invariant byActor == Breakdown(month[..n], ByActor)
      {
        BreakdownSnoc(month, n, ByProvider);
        BreakdownSnoc(month, n, ByTask);
        BreakdownSnoc(month, n, ByActor);
        byProvider := Plus(byProvider, OrUnknown(month[n].provider), month[n].totalTokens);
        byTask := Plus(byTask, OrUnknown(month[n].task), month[n].totalTokens);
        byActor := Plus(byActor, OrUnknown(month[n].actor), month[n].totalTokens);
      }
      assert month[..|month|] == month;
      BreakdownAddsUp(month, ByProvider);
      BreakdownAddsUp(month, ByTask);
      BreakdownAddsUp(month, ByActor);
      if Counted(log) { DayWithinMonth(log, now); }
      forall e | e in log && e.occurredAt.month == now.month
        ensures OrUnknown(e.provider) in byProvider && OrUnknown(e.task) in byTask && OrUnknown(e.actor) in byActor
      {
        NamesListed(log, e);
      }
      var size := RecentCount(|daily|, recentLimit);
      var recent := seq(size, k requires 0 <= k < size => daily[|daily| - 1 - k]);
      s := Summary(Total(daily), Total(month), byProvider, byTask, byActor, recent);
    }

    method CheckLimits(attempted: int, now: Moment) returns (broken: Option<Scope>)
      ensures broken.None? <==>
        || !limits.enforced
        || (&& HasRoom(limits, log, attempted, now, PerRequest)
            && HasRoom(limits, log, attempted, now, Daily)
            && HasRoom(limits, log, attempted, now, Monthly))
      ensures broken.Some? ==> !HasRoom(limits, log, attempted, now, broken.value)
      ensures broken.Some? && broken.value != PerRequest ==> HasRoom(limits, log, attempted, now, PerRequest)
      ensures broken == Some(Monthly) ==> HasRoom(limits, log, attempted, now, Daily)
      ensures broken == Verdict(limits, log, attempted, now)
    {
      hide DayTotal, MonthTotal;
      if !limits.enforced { return None; }
      if limits.perRequest > 0 && attempted > limits.perRequest { return Some(PerRequest); }
      var summary := Summarize(now, 50);
      if limits.daily > 0 && summary.dailyTotal + attempted > limits.daily { return Some(Daily); }
      if limits.monthly > 0 && summary.monthlyTotal + attempted > limits.monthly { return Some(Monthly); }
      return None;
    }
  }

  // ----- Calls under way -----

  /** The log, the attempted sizes of the calls between their check and their record, and the
      time of the last step. */
  datatype State = State(log: seq<Entry>, inFlight: seq<nat>, clock: Moment)

  datatype Step =
    | Check(attempted: nat, now: Moment)
    | Settle(call: nat, entry: Entry)
    | Abort(call: nat)

  function Sum(sizes: seq<nat>): nat {
    if sizes == [] then 0 else Sum(sizes[..|sizes| - 1]) + sizes[|sizes| - 1]
  }

  function Drop(sizes: seq<nat>, i: nat): (r: seq<nat>)
    requires i < |sizes|
    ensures |r| == |sizes| - 1
    ensures forall k | 0 <= k < |r| :: r[k] == sizes[if k < i then k else k + 1]
  {
    sizes[..i] + sizes[i + 1..]
  }

  /** Time does not run backwards, at most `width` calls are under way, and a call records no
      more than it announced. */
  predicate Enabled(s: State, step: Step, width: nat) {
    match step
    case Check(_, now) => NotBefore(s.clock, now) && |s.inFlight| < width
    case Settle(call, e) =>
      call < |s.inFlight| && 0 <= e.totalTokens <= s.inFlight[call] && NotBefore(s.clock, e.occurredAt)
    case Abort(call) => call < |s.inFlight|
  }

  function After(s: State, step: Step, limits: Limits, width: nat): State
    requires Enabled(s, step, width)
  {
    match step
    case Check(attempted, now) =>
      if Verdict(limits, s.log, attempted, now).Some? then s.(clock := now)
      else State(s.log, s.inFlight + [attempted], now)
    case Settle(call, e) => State(s.log + [e], Drop(s.inFlight, call), e.occurredAt)
    case Abort(call) => s.(inFlight := Drop(s.inFlight, call))
  }

  function Run(s: State, steps: seq<Step>, limits: Limits, width: nat): State {
    if steps == [] then s
    else
      var before, step := Run(s, steps[..|steps| - 1], limits, width), steps[|steps| - 1];
      if Enabled(before, step, width) then After(before, step, limits, width) else before
  }

  ghost predicate Inv(s: State, limits: Limits, width: nat) {
    && Counted(s.log) && (forall e | e in s.log :: NotBefore(e.occurredAt, s.clock))
    && |s.inFlight| <= width && (forall k | 0 <= k < |s.inFlight| :: s.inFlight[k] <= limits.perRequest)
    && DayTotal(s.log, s.clock) + Sum(s.inFlight) <= limits.daily + (width - 1) * limits.perRequest
    && MonthTotal(s.log, s.clock.month) + Sum(s.inFlight) <= limits.monthly + (width - 1) * limits.perRequest
  }

  lemma {:induction false} SumAdds(a: seq<nat>, b: seq<nat>)
    ensures Sum(a + b) == Sum(a) + Sum(b)
    decreases |b|
  {
    if b == [] {
      assert a + b == a;
    } else {
      assert (a + b)[..|a + b| - 1] == a + b[..|b| - 1];
      SumAdds(a, b[..|b| - 1]);
    }
  }

  lemma SumOfOne(a: nat)
    ensures Sum([a]) == a
  {
    assert [a][..0] == [];
  }

  lemma {:induction false} DropSum(sizes: seq<nat>, i: nat)
    requires i < |sizes|
    ensures Sum(sizes) == Sum(Drop(sizes, i)) + sizes[i]
  {
    hide Sum;
    var a, b, c := sizes[..i], [sizes[i]], sizes[i + 1..];
    assert sizes == a + b + c;
    SumAdds(a + b, c);
    SumAdds(a, b);
    SumAdds(a, c);
    SumOfOne(sizes[i]);
  }

  lemma {:induction false} SumBound(sizes: seq<nat>, p: nat)
    requires forall k | 0 <= k < |sizes| :: sizes[k] <= p
    ensures Sum(sizes) <= |sizes| * p
    decreases |sizes|
  {
    if sizes != [] {
      SumBound(sizes[..|sizes| - 1], p);
    }
  }

  lemma WidthBound(calls: nat, width: nat, p: nat)
    requires calls < width
    ensures calls * p <= (width - 1) * p
  {
  }

  /** The limits under which the bound is claimed: enforced, and all of them set. */
  predicate AllSet(limits: Limits) {
    limits.enforced && limits.perRequest > 0 && limits.daily > 0 && limits.monthly > 0
  }

  lemma {:induction false} CheckKeepsInv(s: State, attempted: nat, now: Moment, limits: Limits, width: nat)
    requires AllSet(limits) && Inv(s, limits, width) && Enabled(s, Check(attempted, now), width)
    ensures Inv(After(s, Check(attempted, now), limits, width), limits, width)
  {
    hide DayTotal, MonthTotal, Sum;
    NothingYet(s.log, s.clock, now);
    DayWithinMonth(s.log, s.clock);
    SumBound(s.inFlight, limits.perRequest);
    WidthBound(|s.inFlight|, width, limits.perRequest);
    SumAdds(s.inFlight, [attempted]);
    SumOfOne(attempted);
  }

  lemma SettleKeepsInv(s: State, call: nat, e: Entry, limits: Limits, width: nat)
    requires AllSet(limits) && Inv(s, limits, width) && Enabled(s, Settle(call, e), width)
    ensures Inv(After(s, Settle(call, e), limits, width), limits, width)
  {
    hide DayTotal, MonthTotal, Sum;
    NothingYet(s.log, s.clock, e.occurredAt);
    RecordTotals(s.log, e, e.occurredAt);
    DayWithinMonth(s.log, s.clock);
    DropSum(s.inFlight, call);
  }

  lemma StepKeepsInv(s: State, step: Step, limits: Limits, width: nat)
    requires AllSet(limits) && Inv(s, limits, width) && Enabled(s, step, width)
    ensures Inv(After(s, step, limits, width), limits, width)
  {
    match step
    case Check(attempted, now) => CheckKeepsInv(s, attempted, now, limits, width);
    case Settle(call, e) => SettleKeepsInv(s, call, e, limits, width);
    case Abort(call) => DropSum(s.inFlight, call);
  }

  lemma {:induction false} RunKeepsInv(s: State, steps: seq<Step>, limits: Limits, width: nat)
    requires AllSet(limits) && Inv(s, limits, width)
    ensures Inv(Run(s, steps, limits, width), limits, width)
    decreases |steps|
  {
    hide Inv;
    if steps != [] {
      RunKeepsInv(s, steps[..|steps| - 1], limits, width);
      var before := Run(s, steps[..|steps| - 1], limits, width);
      if Enabled(before, steps[|steps| - 1], width) { StepKeepsInv(before, steps[|steps| - 1], limits, width); }
    }
  }

  /** Over every run with at most `width` calls under way, what is used plus what is under way
      exceeds a limit by at most `width - 1` requests; serial use never exceeds it. */
  lemma OvershootBound(steps: seq<Step>, limits: Limits, width: nat, start: Moment)
    requires limits.enforced && limits.perRequest > 0 && limits.daily > 0 && limits.monthly > 0
    requires width >= 1
    ensures var s := Run(State([], [], start), steps, limits, width);
            && DayTotal(s.log, s.clock) + Sum(s.inFlight) <= limits.daily + (width - 1) * limits.perRequest
            && MonthTotal(s.log, s.clock.month) + Sum(s.inFlight) <= limits.monthly + (width - 1) * limits.perRequest
  {
    assert (width - 1) * limits.perRequest >= 0;
    RunKeepsInv(State([], [], start), steps, limits, width);
  }

  // ----- The bound is tight -----

  lemma {:induction false} RunAdds(s: State, a: seq<Step>, b: seq<Step>, limits: Limits, width: nat)
    ensures Run(s, a + b, limits, width) == Run(Run(s, a, limits, width), b, limits, width)
    decreases |b|
  {
    hide Enabled, After;
    if b == [] {
      assert a + b == a;
    } else {
      assert (a + b)[..|a + b| - 1] == a + b[..|b| - 1];
      RunAdds(s, a, b[..|b| - 1], limits, width);
    }
  }

  lemma RunOne(s: State, step: Step, limits: Limits, width: nat)
    requires Enabled(s, step, width)
    ensures Run(s, [step], limits, width) == After(s, step, limits, width)
  {
    hide Enabled, After;
    assert [step][..0] == [];
    assert Run(s, [], limits, width) == s;
  }

  function Same(p: nat, n: nat): seq<nat> {
    seq(n, _ => p)
  }

  function EntryOf(size: nat, at: Moment): (e: Entry)
    ensures e.totalTokens == size && e.occurredAt == at
  {
    EntryFor("", "", "", "", size, 0, at)
  }

  /** n calls of the full request size are checked before any of them records. */
  lemma {:induction false} Burst(s: State, now: Moment, n: nat, limits: Limits, width: nat) returns (steps: seq<Step>)
    requires AllSet(limits) && s.inFlight == [] && NotBefore(s.clock, now) && n <= width
    requires DayTotal(s.log, now) + limits.perRequest <= limits.daily
    requires MonthTotal(s.log, now.month) + limits.perRequest <= limits.monthly
    ensures Run(s, steps, limits, width) == State(s.log, Same(limits.perRequest, n), if n == 0 then s.clock else now)
    decreases n
  {
    hide DayTotal, MonthTotal;
    if n == 0 {
      steps := [];
    } else {
      var before := Burst(s, now, n - 1, limits, width);
      var step := Check(limits.perRequest, now);
      var mid := Run(s, before, limits, width);
      RunOne(mid, step, limits, width);
      RunAdds(s, before, [step], limits, width);
      steps := before + [step];
      assert Same(limits.perRequest, n - 1) + [limits.perRequest] == Same(limits.perRequest, n);
    }
  }

  /** The last of them records what it announced. */
  lemma SettleLast(s: State, p: nat, n: nat, limits: Limits, width: nat) returns (step: Step)
    requires n > 0 && s.inFlight == Same(p, n)
    ensures Enabled(s, step, width)
    ensures var next := After(s, step, limits, width);
            && next.inFlight == Same(p, n - 1) && next.clock == s.clock
            && DayTotal(next.log, s.clock) == DayTotal(s.log, s.clock) + p
            && MonthTotal(next.log, s.clock.month) == MonthTotal(s.log, s.clock.month) + p
  {
    hide DayTotal, MonthTotal;
    var e := EntryOf(p, s.clock);
    step := Settle(n - 1, e);
    assert Drop(Same(p, n), n - 1) == Same(p, n - 1);
    RecordTotals(s.log, e, s.clock);
  }

  /** Then all of them record what they announced. */
  lemma {:induction false} SettleAll(s: State, p: nat, n: nat, limits: Limits, width: nat) returns (steps: seq<Step>)
    requires s.inFlight == Same(p, n)
    ensures var after := Run(s, steps, limits, width);
            && after.inFlight == [] && after.clock == s.clock
            && DayTotal(after.log, s.clock) == DayTotal(s.log, s.clock) + n * p
            && MonthTotal(after.log, s.clock.month) == MonthTotal(s.log, s.clock.month) + n * p
    decreases n
  {
    hide DayTotal, MonthTotal, Enabled, After;
    if n == 0 {
      steps := [];
    } else {
      var step := SettleLast(s, p, n, limits, width);
      RunOne(s, step, limits, width);
      var rest := SettleAll(After(s, step, limits, width), p, n - 1, limits, width);
      RunAdds(s, [step], rest, limits, width);
      steps := [step] + rest;
      assert n * p == (n - 1) * p + p;
    }
  }

  /** One call after the other, each recorded before the next is checked, all on one day or each
      on a day of its own. */
  lemma {:induction false} Spend(s: State, total: nat, newDays: bool, limits: Limits, width: nat)
    returns (steps: seq<Step>)
    requires AllSet(limits) && width >= 1 && s.inFlight == [] && Inv(s, limits, width)
    requires if newDays then limits.perRequest <= limits.daily else DayTotal(s.log, s.clock) + total <= limits.daily
    requires MonthTotal(s.log, s.clock.month) + total <= limits.monthly
    ensures var after := Run(s, steps, limits, width);
            && after.inFlight == [] && after.clock.month == s.clock.month && Inv(after, limits, width)
            && MonthTotal(after.log, s.clock.month) == MonthTotal(s.log, s.clock.month) + total
            && (!newDays ==> after.clock == s.clock && DayTotal(after.log, s.clock) == DayTotal(s.log, s.clock) + total)
    decreases total
  {
    hide DayTotal, MonthTotal, Inv;
    if total == 0 {
      steps := [];
    } else {
      var size: nat := if total < limits.perRequest then total else limits.perRequest;
      var now := if newDays then Moment(s.clock.month, s.clock.day + 1) else s.clock;
      var next := SpendOne(s, size, now, limits, width);
      var rest := Spend(next, total - size, newDays, limits, width);
      var pair := [Check(size, now), Settle(0, EntryOf(size, now))];
      RunAdds(s, pair, rest, limits, width);
      steps := pair + rest;
    }
  }

  /** One call checked and recorded, today or on a later day of the month. */
  lemma SpendOne(s: State, size: nat, now: Moment, limits: Limits, width: nat) returns (next: State)
    requires AllSet(limits) && width >= 1 && s.inFlight == [] && Inv(s, limits, width)
    requires now.month == s.clock.month && now.day >= s.clock.day && size <= limits.perRequest
    requires if now == s.clock then DayTotal(s.log, s.clock) + size <= limits.daily else size <= limits.daily
    requires MonthTotal(s.log, now.month) + size <= limits.monthly
    ensures next == Run(s, [Check(size, now), Settle(0, EntryOf(size, now))], limits, width)
    ensures next.inFlight == [] && next.clock == now && Inv(next, limits, width)
    ensures MonthTotal(next.log, now.month) == MonthTotal(s.log, now.month) + size
    ensures now == s.clock ==> DayTotal(next.log, now) == DayTotal(s.log, now) + size
  {
    hide DayTotal, MonthTotal, Sum;
    NothingYet(s.log, s.clock, now);
    var check, settle := Check(size, now), Settle(0, EntryOf(size, now));
    RunOne(s, check, limits, width);
    var mid := After(s, check, limits, width);
    assert mid == State(s.log, [size], now);
    CheckKeepsInv(s, size, now, limits, width);
    RunOne(mid, settle, limits, width);
    next := After(mid, settle, limits, width);
    assert Drop([size], 0) == [];
    SettleKeepsInv(mid, 0, EntryOf(size, now), limits, width);
    RecordTotals(s.log, EntryOf(size, now), now);
    assert [check] + [settle] == [check, settle];
    RunAdds(s, [check], [settle], limits, width);
  }

  lemma NothingSpent(limits: Limits, width: nat, start: Moment)
    requires AllSet(limits) && width >= 1
    ensures var s := State([], [], start);
            Inv(s, limits, width) && DayTotal([], start) == 0 && MonthTotal([], start.month) == 0
  {
    assert (width - 1) * limits.perRequest >= 0;
  }

  /** Spends all but one request of a budget, then overshoots it by `width` calls at once. */
  lemma Overshoot(limits: Limits, width: nat, start: Moment, spend: nat, newDays: bool) returns (steps: seq<Step>)
    requires AllSet(limits) && width >= 1 && limits.perRequest <= limits.daily
    requires spend + limits.perRequest <= limits.monthly && (!newDays ==> spend + limits.perRequest <= limits.daily)
    ensures var s := Run(State([], [], start), steps, limits, width);
            && s.inFlight == []
            && MonthTotal(s.log, s.clock.month) == spend + width * limits.perRequest
            && (!newDays ==> DayTotal(s.log, s.clock) == spend + width * limits.perRequest)
  {
    hide DayTotal, MonthTotal, Inv;
    var s := State([], [], start);
    NothingSpent(limits, width, start);
    var first := Spend(s, spend, newDays, limits, width);
    var spent := Run(s, first, limits, width);
    var now := if newDays then Moment(spent.clock.month, spent.clock.day + 1) else spent.clock;
    assert DayTotal(spent.log, now) + limits.perRequest <= limits.daily by {
      if newDays { NothingYetOn(spent, now, limits, width); }
    }
    var second := Burst(spent, now, width, limits, width);
    var under := Run(spent, second, limits, width);
    var third := SettleAll(under, limits.perRequest, width, limits, width);
    RunAdds(s, first, second, limits, width);
    RunAdds(s, first + second, third, limits, width);
    steps := first + second + third;
  }

  lemma NothingYetOn(s: State, now: Moment, limits: Limits, width: nat)
    requires Inv(s, limits, width) && NotBefore(s.clock, now) && now != s.clock
    ensures DayTotal(s.log, now) == 0
  {
    hide DayTotal, MonthTotal, Sum;
    NothingYet(s.log, s.clock, now);
  }

  lemma Widths(width: nat, p: nat)
    requires width >= 1
    ensures width * p == p + (width - 1) * p
  {
  }

  /** The monthly bound is reached by recorded use, for every limit that allows one request. */
  lemma MonthlyBoundIsReached(limits: Limits, width: nat, start: Moment) returns (steps: seq<Step>)
    requires limits.enforced && limits.perRequest > 0 && limits.daily > 0 && limits.monthly > 0
    requires width >= 1 && limits.perRequest <= limits.daily && limits.perRequest <= limits.monthly
    ensures var s := Run(State([], [], start), steps, limits, width);
            s.inFlight == [] && MonthTotal(s.log, s.clock.month) == limits.monthly + (width - 1) * limits.perRequest
  {
    hide MonthTotal, DayTotal, Run;
    Widths(width, limits.perRequest);
    steps := Overshoot(limits, width, start, limits.monthly - limits.perRequest, true);
  }

  /** The daily bound is reached by recorded use exactly when the monthly limit is not below the
      daily one. */
  lemma DailyBoundIsReached(limits: Limits, width: nat, start: Moment)
    requires limits.enforced && limits.perRequest > 0 && limits.daily > 0 && limits.monthly > 0
    requires width >= 1 && limits.perRequest <= limits.daily
    ensures (exists steps :: var s := Run(State([], [], start), steps, limits, width);
                             DayTotal(s.log, s.clock) == limits.daily + (width - 1) * limits.perRequest)
            <==> limits.daily <= limits.monthly
  {
    hide MonthTotal, DayTotal, Run, Inv;
    Widths(width, limits.perRequest);
    if limits.daily <= limits.monthly {
      var steps := Overshoot(limits, width, start, limits.daily - limits.perRequest, false);
    }
    forall steps ensures var s := Run(State([], [], start), steps, limits, width);
                         DayTotal(s.log, s.clock) <= limits.monthly + (width - 1) * limits.perRequest {
      NothingSpent(limits, width, start);
      RunKeepsInv(State([], [], start), steps, limits, width);
      DayIsBounded(Run(State([], [], start), steps, limits, width), limits, width);
    }
  }

  lemma DayIsBounded(s: State, limits: Limits, width: nat)
    requires Inv(s, limits, width)
    ensures DayTotal(s.log, s.clock) <= limits.monthly + (width - 1) * limits.perRequest
  {
    hide MonthTotal, DayTotal;
    DayWithinMonth(s.log, s.clock);
  }
}
