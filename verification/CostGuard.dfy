/**
 The live-call budget. Checking and recording are two separately locked steps, so the budget is a property of
 interleavings. Amounts are exact reals (the source computes in Decimal).
 */
module CostGuard {
  import opened Common

  datatype Rates = Rates(input: real, cached: real, output: real)

  predicate NonNegative(rates: Rates) {
    rates.input >= 0.0 && rates.cached >= 0.0 && rates.output >= 0.0
  }

  datatype Error = MissingUsage | CostLimitExceeded | InvalidEstimate

  /** A usage mapping: an absent key is None; a value that is not an integer is NotInt. */
  datatype Field = Absent | NotInt | Tokens(count: int)

  datatype Usage = Usage(input: Field, output: Field, cached: Field)

  /** Tokens times a rate per million. */
  function Charge(tokens: int, rate: real): real {
    tokens as real * rate / 1000000.0
  }

  function Cost(rates: Rates, input: int, cached: int, output: int): real {
    Charge(input - cached, rates.input) + Charge(cached, rates.cached) + Charge(output, rates.output)
  }

  function Estimate(rates: Rates, input: int, output: int): real {
    Charge(input, rates.input) + Charge(output, rates.output)
  }

  /** The token counts of an acceptable usage. */
  function Parse(usage: Option<Usage>): Option<(nat, nat, nat)> {
    if usage.None? then None
    else
      var u := usage.value;
      if !(u.input.Tokens? && u.input.count >= 0 && u.output.Tokens? && u.output.count >= 0) then None
      else if u.cached.Absent? then Some((u.input.count, 0, u.output.count))
      else if !(u.cached.Tokens? && 0 <= u.cached.count <= u.input.count) then None
      else Some((u.input.count, u.cached.count, u.output.count))
  }

  class CostGuard {
    const rates: Rates
    const warning: real
    const hardCeiling: real
    var spent: real
    var warned: bool
    ghost var recorded: seq<real>

    ghost predicate Valid()
      reads this
    {
      spent == Total(recorded) && warned == Reached(recorded, warning)
    }

    constructor (rates: Rates, warning: real, hardCeiling: real)
      ensures Valid() && spent == 0.0 && !warned && recorded == []
      ensures this.rates == rates && this.warning == warning && this.hardCeiling == hardCeiling
    {
      this.rates, this.warning, this.hardCeiling := rates, warning, hardCeiling;
      spent, warned, recorded := 0.0, false, [];
    }

    method EstimateCost(inputTokens: int, outputTokens: int) returns (r: Result<real, Error>)
      ensures r == if inputTokens < 0 || outputTokens < 0 then Err(InvalidEstimate)
                   else Ok(Estimate(rates, inputTokens, outputTokens))
    {
      if inputTokens < 0 || outputTokens < 0 {
        return Err(InvalidEstimate);
      }
      return Ok(Estimate(rates, inputTokens, outputTokens));
    }

    /** The check alone reserves nothing. */
    method CheckBeforeDispatch(projected: real) returns (error: Option<Error>)
      requires Valid()
      ensures error.None? <==> projected >= 0.0 && Total(recorded) + projected <= hardCeiling
      ensures error.Some? ==> error.value == if projected < 0.0 then InvalidEstimate else CostLimitExceeded
    {
      if projected < 0.0 {
        return Some(InvalidEstimate);
      }
      if spent + projected > hardCeiling {
        return Some(CostLimitExceeded);
      }
      return None;
    }

    /** Rejected usage records nothing; the warning is issued by the call that first reaches the threshold. */
    method RecordUsage(usage: Option<Usage>) returns (r: Result<real, Error>, warns: bool)
      requires Valid()
      modifies this
      ensures Valid()
      ensures r == (match Parse(usage)
                    case None => Err(MissingUsage)
                    case Some((i, c, o)) => Ok(Cost(rates, i, c, o)))
      ensures recorded == if r.Ok? then old(recorded) + [r.value] else old(recorded)
      ensures warns <==> r.Ok? && !Reached(old(recorded), warning) && Total(recorded) >= warning
    {
      var tokens := ParseUsage(usage);
      if tokens.None? {
        return Err(MissingUsage), false;
      }
      var (input, cached, output) := tokens.value;
      var cost := Cost(rates, input, cached, output);
      assert (recorded + [cost])[..|recorded|] == recorded;
      spent := spent + cost;
      recorded := recorded + [cost];
      warns := spent >= warning && !warned;
      if warns {
        warned := true;
      }
      return Ok(cost), warns;
    }
  }

  /** The usage reports these counts: both required keys are there, a missing cached count is zero, and no more is
      cached than was put in. */
  ghost predicate Reports(usage: Option<Usage>, input: nat, cached: nat, output: nat) {
    usage.Some? && usage.value.input == Tokens(input) && usage.value.output == Tokens(output) &&
    usage.value.cached in (if cached == 0 then {Absent, Tokens(0)} else {Tokens(cached)}) && cached <= input
  }

  method ParseUsage(usage: Option<Usage>) returns (tokens: Option<(nat, nat, nat)>)
    ensures tokens == Parse(usage)
    ensures forall i: nat, c: nat, o: nat :: tokens == Some((i, c, o)) <==> Reports(usage, i, c, o)
  {
    if usage.None? {
      return None;
    }
    var u := usage.value;
    if !u.input.Tokens? || u.input.count < 0 || !u.output.Tokens? || u.output.count < 0 {
      return None;
    }
    var cached := 0;
    if !u.cached.Absent? {
      if !u.cached.Tokens? || u.cached.count < 0 {
        return None;
      }
      cached := u.cached.count;
    }
    if cached > u.input.count {
      return None;
    }
    return Some((u.input.count, cached, u.output.count));
  }

  function Total(costs: seq<real>): real {
    if costs == [] then 0.0 else Total(costs[..|costs| - 1]) + costs[|costs| - 1]
  }

  /** Some non-empty prefix of the recorded costs reached the threshold. */
  predicate Reached(costs: seq<real>, threshold: real) {
    costs != [] && (Total(costs) >= threshold || Reached(costs[..|costs| - 1], threshold))
  }

  /** The threshold was reached when the total after some recorded cost was at or above it. */
  lemma {:induction false} ReachedIff(costs: seq<real>, threshold: real)
    ensures Reached(costs, threshold) <==> exists k :: 0 < k <= |costs| && Total(costs[..k]) >= threshold
    decreases |costs|
  {
    if costs != [] {
      var shorter := costs[..|costs| - 1];
      ReachedIff(shorter, threshold);
      assert costs[..|costs|] == costs;
      assert forall k :: 0 < k <= |shorter| ==> shorter[..k] == costs[..k];
    }
  }

  // ---- one call ------------------------------------------------------------------------------------

  /** Rates are per million tokens: a million tokens of one kind cost its rate, and costs add up. A projection is the
      cost of a call without cached input. */
  lemma CostIsPerMillion(rates: Rates, a: (int, int, int), b: (int, int, int))
    ensures Cost(rates, 1000000, 0, 0) == rates.input
    ensures Cost(rates, 1000000, 1000000, 0) == rates.cached
    ensures Cost(rates, 0, 0, 1000000) == rates.output
    ensures Cost(rates, a.0 + b.0, a.1 + b.1, a.2 + b.2) == Cost(rates, a.0, a.1, a.2) + Cost(rates, b.0, b.1, b.2)
    ensures Estimate(rates, a.0, a.2) == Cost(rates, a.0, 0, a.2)
  {
    hide Charge;
    ChargeMillion(rates.input);
    ChargeMillion(rates.cached);
    ChargeMillion(rates.output);
    ChargeSum(a.0 - a.1, b.0 - b.1, rates.input);
    ChargeSum(a.1, b.1, rates.cached);
    ChargeSum(a.2, b.2, rates.output);
    assert a.0 - a.1 + (b.0 - b.1) == a.0 + b.0 - (a.1 + b.1);
  }

  lemma ChargeMillion(rate: real)
    ensures Charge(1000000, rate) == rate && Charge(0, rate) == 0.0
  {
  }

  lemma ChargeMono(a: nat, b: nat, rate: real, dearer: real)
    requires a <= b && 0.0 <= rate <= dearer
    ensures 0.0 <= Charge(a, rate) <= Charge(b, rate)
    ensures Charge(a, rate) <= Charge(a, dearer)
  {
    var x, y := a as real, b as real;
    assert 0.0 <= x * rate && x * rate <= y * rate;
    assert x * rate <= x * dearer;
  }

  lemma ChargeSum(a: int, b: int, rate: real)
    ensures Charge(a, rate) + Charge(b, rate) == Charge(a + b, rate)
  {
    var x, y := a as real, b as real;
    assert x * rate + y * rate == (x + y) * rate;
  }

  /** A response that stays within the estimated token counts never costs more than the estimate, provided
      cached input is not dearer than input. */
  lemma ActualWithinEstimate(rates: Rates, input: nat, cached: nat, output: nat, estInput: nat, estOutput: nat)
    requires NonNegative(rates) && rates.cached <= rates.input
    requires cached <= input <= estInput && output <= estOutput
    ensures 0.0 <= Cost(rates, input, cached, output) <= Estimate(rates, estInput, estOutput)
  {
    ChargeMono(cached, cached, rates.cached, rates.input);
    ChargeSum(input - cached, cached, rates.input);
    ChargeMono(input - cached, input, rates.input, rates.input);
    ChargeMono(input, estInput, rates.input, rates.input);
    ChargeMono(output, estOutput, rates.output, rates.output);
  }

  /** The condition on the rates is exact: a dearer cached rate breaks the bound for a one-token call. */
  lemma EstimateBoundsAllCallsIff(rates: Rates)
    requires NonNegative(rates)
    ensures rates.cached <= rates.input <==>
      forall input: nat, cached: nat, output: nat :: cached <= input ==>
        Cost(rates, input, cached, output) <= Estimate(rates, input, output)
  {
    if rates.cached <= rates.input {
      forall input: nat, cached: nat, output: nat | cached <= input
        ensures Cost(rates, input, cached, output) <= Estimate(rates, input, output)
      {
        ActualWithinEstimate(rates, input, cached, output, input, output);
      }
    } else {
      assert Charge(1, rates.cached) > Charge(1, rates.input);
      assert Charge(0, rates.input) == 0.0;
      assert Cost(rates, 1, 1, 0) > Estimate(rates, 1, 0);
    }
  }

  // ---- interleavings -------------------------------------------------------------------------------

  type CallId = nat

  /** A call is in flight from its check to its record (or to the failure that records nothing). */
  datatype System = System(spent: real, inFlight: map<CallId, real>)

  datatype Event = Check(call: CallId, projected: real) | Record(call: CallId, actual: real) | Drop(call: CallId)

  /** What the environment promises and what the guard enforces at one event. */
  ghost predicate Allowed(s: System, e: Event, ceiling: real, maxProjected: real, maxInFlight: nat) {
    match e
    case Check(c, p) =>
      c !in s.inFlight && |s.inFlight| < maxInFlight && 0.0 <= p <= maxProjected && s.spent + p <= ceiling
    case Record(c, a) => c in s.inFlight && 0.0 <= a <= s.inFlight[c]
    case Drop(c) => c in s.inFlight
  }

  function After(s: System, e: Event): System {
    match e
    case Check(c, p) => s.(inFlight := s.inFlight[c := p])
    case Record(c, a) => System(s.spent + a, s.inFlight - {c})
    case Drop(c) => s.(inFlight := s.inFlight - {c})
  }

  function Final(s: System, events: seq<Event>): System
    decreases |events|
  {
    if events == [] then s else Final(After(s, events[0]), events[1..])
  }

  ghost predicate Schedule(s: System, events: seq<Event>, ceiling: real, maxProjected: real, maxInFlight: nat)
    decreases |events|
  {
    events != [] ==>
      Allowed(s, events[0], ceiling, maxProjected, maxInFlight) &&
      Schedule(After(s, events[0]), events[1..], ceiling, maxProjected, maxInFlight)
  }

  /** n times p, by repeated addition. */
  function Times(n: nat, p: real): real {
    if n == 0 then 0.0 else p + Times(n - 1, p)
  }

  lemma {:induction false} TimesIsProduct(n: nat, p: real)
    ensures Times(n, p) == n as real * p
  {
    if n > 0 {
      TimesIsProduct(n - 1, p);
      var m := (n - 1) as real;
      assert (m + 1.0) * p == m * p + p;
    }
  }

  lemma {:induction false} TimesMono(m: nat, n: nat, p: real)
    requires m <= n && p >= 0.0
    ensures 0.0 <= Times(m, p) <= Times(n, p)
  {
    if n > 0 {
      TimesMono(if m == 0 then 0 else m - 1, n - 1, p);
    }
  }

  /** What the calls in flight could still cost. */
  ghost function Pending(m: map<CallId, real>): real {
    if m == map[] then 0.0 else var c :| c in m; m[c] + Pending(m - {c})
  }

  lemma {:induction false} PendingPick(m: map<CallId, real>, c: CallId)
    requires c in m
    ensures Pending(m) == m[c] + Pending(m - {c})
  {
    var d :| d in m && Pending(m) == m[d] + Pending(m - {d});
    if c != d {
      PendingPick(m - {d}, c);
      PendingPick(m - {c}, d);
      assert m - {d} - {c} == m - {c} - {d};
    }
  }

  lemma {:induction false} PendingBounds(m: map<CallId, real>, p: real)
    requires p >= 0.0 && forall c :: c in m ==> 0.0 <= m[c] <= p
    ensures 0.0 <= Pending(m) <= Times(|m|, p)
  {
    if m != map[] {
      var c :| c in m && Pending(m) == m[c] + Pending(m - {c});
      assert |m - {c}| == |m| - 1 by {
        assert (m - {c}).Keys == m.Keys - {c};
      }
      PendingBounds(m - {c}, p);
    }
  }

  /** The overshoot that the missing reservation allows. */
  function Bound(ceiling: real, p: real, n: nat): real {
    if n == 0 then 0.0 else ceiling + Times(n - 1, p)
  }

  ghost predicate Inv(s: System, ceiling: real, p: real, n: nat) {
    && |s.inFlight| <= n
    && (forall c :: c in s.inFlight ==> 0.0 <= s.inFlight[c] <= p)
    && 0.0 <= s.spent
    && (s == System(0.0, map[]) || (n > 0 && s.spent + Pending(s.inFlight) <= Bound(ceiling, p, n)))
  }

  lemma PendingAdd(m: map<CallId, real>, c: CallId, q: real)
    requires c !in m
    ensures Pending(m[c := q]) == q + Pending(m) && |m[c := q]| == |m| + 1
  {
    hide Pending;
    PendingPick(m[c := q], c);
    assert m[c := q] - {c} == m;
    assert m[c := q].Keys == m.Keys + {c};
  }

  lemma CheckKeepsInv(s: System, c: CallId, q: real, ceiling: real, p: real, n: nat)
    requires p >= 0.0 && Inv(s, ceiling, p, n) && Allowed(s, Check(c, q), ceiling, p, n)
    ensures Inv(After(s, Check(c, q)), ceiling, p, n)
  {
    hide Pending, Times;
    PendingBounds(s.inFlight, p);
    PendingAdd(s.inFlight, c, q);
    TimesMono(|s.inFlight|, n - 1, p);
  }

  /** A call leaves the flight and adds at most its projection. */
  lemma SettleKeepsInv(s: System, c: CallId, a: real, ceiling: real, p: real, n: nat)
    requires p >= 0.0 && Inv(s, ceiling, p, n) && c in s.inFlight && 0.0 <= a <= s.inFlight[c]
    ensures Inv(System(s.spent + a, s.inFlight - {c}), ceiling, p, n)
  {
    hide Pending, Times;
    PendingPick(s.inFlight, c);
    assert (s.inFlight - {c}).Keys == s.inFlight.Keys - {c};
  }

  lemma EventKeepsInv(s: System, e: Event, ceiling: real, p: real, n: nat)
    requires p >= 0.0 && Inv(s, ceiling, p, n) && Allowed(s, e, ceiling, p, n)
    ensures Inv(After(s, e), ceiling, p, n)
  {
    match e {
      case Check(c, q) => CheckKeepsInv(s, c, q, ceiling, p, n);
      case Record(c, a) => SettleKeepsInv(s, c, a, ceiling, p, n);
      case Drop(c) => SettleKeepsInv(s, c, 0.0, ceiling, p, n);
    }
  }

  lemma {:induction false} ScheduleKeepsInv(s: System, events: seq<Event>, ceiling: real, p: real, n: nat)
    requires p >= 0.0 && Inv(s, ceiling, p, n) && Schedule(s, events, ceiling, p, n)
    ensures Inv(Final(s, events), ceiling, p, n)
    decreases |events|
  {
    if events != [] {
      EventKeepsInv(s, events[0], ceiling, p, n);
      ScheduleKeepsInv(After(s, events[0]), events[1..], ceiling, p, n);
    }
  }

  lemma BudgetHoldsByAddition(events: seq<Event>, ceiling: real, p: real, n: nat)
    requires p >= 0.0 && Schedule(System(0.0, map[]), events, ceiling, p, n)
    ensures var spent := Final(System(0.0, map[]), events).spent;
      0.0 <= spent && (spent == 0.0 || (n > 0 && spent <= ceiling + Times(n - 1, p)))
  {
    ScheduleKeepsInv(System(0.0, map[]), events, ceiling, p, n);
    PendingBounds(Final(System(0.0, map[]), events).inFlight, p);
  }

  /** Under any interleaving of at most n calls the spending stays within ceiling + (n - 1) * p, or is nil. */
  lemma BudgetHolds(events: seq<Event>, ceiling: real, p: real, n: nat)
    requires p >= 0.0 && Schedule(System(0.0, map[]), events, ceiling, p, n)
    ensures var spent := Final(System(0.0, map[]), events).spent;
      spent == 0.0 || (n > 0 && spent <= ceiling + (n - 1) as real * p)
    ensures n == 1 && ceiling >= 0.0 ==> Final(System(0.0, map[]), events).spent <= ceiling
  {
    BudgetHoldsByAddition(events, ceiling, p, n);
    if n > 0 {
      TimesIsProduct(n - 1, p);
    }
  }

  // ---- callers of one guard ------------------------------------------------------------------------

  /** What the callers of a guard do, in the order in which its lock admits them: one asks before it dispatches, one
      reports the usage of its response, which may be missing. */
  datatype Move = Dispatch(call: CallId, input: nat, output: nat) | Respond(call: CallId, usage: Option<Usage>)

  /** The recorded total, and the token estimates of the calls that were let through and have not reported yet. */
  datatype Callers = Callers(spent: real, open: map<CallId, (nat, nat)>)

  function Proceed(rates: Rates, ceiling: real, s: Callers, m: Move): Callers {
    match m
    case Dispatch(c, i, o) =>
      if s.spent + Estimate(rates, i, o) <= ceiling then s.(open := s.open[c := (i, o)]) else s
    case Respond(c, usage) =>
      match Parse(usage)
      case None => s.(open := s.open - {c})
      case Some((i, cached, o)) => Callers(s.spent + Cost(rates, i, cached, o), s.open - {c})
  }

  /** A caller reports only a call that was let through, its usage stays within the token estimates, no estimate
      costs more than p, and at most n calls are open. */
  ghost predicate Promised(rates: Rates, s: Callers, m: Move, p: real, n: nat) {
    match m
    case Dispatch(c, i, o) => c !in s.open && |s.open| < n && Estimate(rates, i, o) <= p
    case Respond(c, usage) =>
      c in s.open &&
      match Parse(usage)
      case None => true
      case Some((i, _, o)) => i <= s.open[c].0 && o <= s.open[c].1
  }

  function Outcome(rates: Rates, ceiling: real, s: Callers, moves: seq<Move>): Callers
    decreases |moves|
  {
    if moves == [] then s else Outcome(rates, ceiling, Proceed(rates, ceiling, s, moves[0]), moves[1..])
  }

  ghost predicate PromisesKept(rates: Rates, ceiling: real, s: Callers, moves: seq<Move>, p: real, n: nat)
    decreases |moves|
  {
    moves != [] ==>
      Promised(rates, s, moves[0], p, n) &&
      PromisesKept(rates, ceiling, Proceed(rates, ceiling, s, moves[0]), moves[1..], p, n)
  }

  function Projections(rates: Rates, open: map<CallId, (nat, nat)>): map<CallId, real> {
    map c | c in open :: Estimate(rates, open[c].0, open[c].1)
  }

  function SystemOf(rates: Rates, s: Callers): System {
    System(s.spent, Projections(rates, s.open))
  }

  /** The events of one move: a refused dispatch is none. */
  function EventsOf(rates: Rates, ceiling: real, s: Callers, m: Move): seq<Event> {
    match m
    case Dispatch(c, i, o) =>
      if s.spent + Estimate(rates, i, o) <= ceiling then [Check(c, Estimate(rates, i, o))] else []
    case Respond(c, usage) =>
      match Parse(usage)
      case None => [Drop(c)]
      case Some((i, cached, o)) => [Record(c, Cost(rates, i, cached, o))]
  }

  /** Cached input is not dearer than input, and no rate is negative. */
  predicate OrderlyRates(rates: Rates) {
    NonNegative(rates) && rates.cached <= rates.input
  }

  lemma ProjectionsSize(rates: Rates, open: map<CallId, (nat, nat)>)
    ensures |Projections(rates, open)| == |open|
  {
    assert Projections(rates, open).Keys == open.Keys;
  }

  lemma OneEvent(s: System, e: Event, ceiling: real, p: real, n: nat)
    requires Allowed(s, e, ceiling, p, n)
    ensures Schedule(s, [e], ceiling, p, n) && Final(s, [e]) == After(s, e)
  {
    hide Allowed, After;
    assert [e][1..] == [];
    assert Final(s, [e]) == Final(After(s, [e][0]), [e][1..]);
  }

  lemma DispatchIsCheck(
    rates: Rates, ceiling: real, s: Callers, c: CallId, input: nat, output: nat, p: real, n: nat)
    requires OrderlyRates(rates) && Promised(rates, s, Dispatch(c, input, output), p, n)
    requires s.spent + Estimate(rates, input, output) <= ceiling
    ensures var e := Check(c, Estimate(rates, input, output));
      Allowed(SystemOf(rates, s), e, ceiling, p, n) &&
      After(SystemOf(rates, s), e) == SystemOf(rates, Proceed(rates, ceiling, s, Dispatch(c, input, output)))
  {
    hide Estimate, Cost;
    ActualWithinEstimate(rates, 0, 0, 0, input, output);
    ProjectionsSize(rates, s.open);
    assert Projections(rates, s.open[c := (input, output)]) ==
      Projections(rates, s.open)[c := Estimate(rates, input, output)];
  }

  lemma ResponseSettles(rates: Rates, ceiling: real, s: Callers, c: CallId, usage: Option<Usage>, p: real, n: nat)
    requires OrderlyRates(rates) && Promised(rates, s, Respond(c, usage), p, n)
    ensures var e := EventsOf(rates, ceiling, s, Respond(c, usage))[0];
      Allowed(SystemOf(rates, s), e, ceiling, p, n) &&
      After(SystemOf(rates, s), e) == SystemOf(rates, Proceed(rates, ceiling, s, Respond(c, usage)))
  {
    hide Estimate, Cost, Parse;
    match Parse(usage) {
      case None =>
      case Some((i, cached, o)) =>
        ParsedIsOrderly(usage);
        ActualWithinEstimate(rates, i, cached, o, s.open[c].0, s.open[c].1);
    }
    assert Projections(rates, s.open - {c}) == Projections(rates, s.open) - {c};
  }

  lemma ParsedIsOrderly(usage: Option<Usage>)
    ensures Parse(usage).Some? ==> Parse(usage).value.1 <= Parse(usage).value.0
  {
  }

  lemma MoveIsAllowed(rates: Rates, ceiling: real, s: Callers, m: Move, p: real, n: nat)
    requires OrderlyRates(rates) && Promised(rates, s, m, p, n)
    ensures Schedule(SystemOf(rates, s), EventsOf(rates, ceiling, s, m), ceiling, p, n)
    ensures Final(SystemOf(rates, s), EventsOf(rates, ceiling, s, m)) ==
      SystemOf(rates, Proceed(rates, ceiling, s, m))
  {
    hide Allowed, After, Estimate, Cost, Parse, SystemOf, Promised;
    match m {
      case Dispatch(c, i, o) =>
        if s.spent + Estimate(rates, i, o) <= ceiling {
          DispatchIsCheck(rates, ceiling, s, c, i, o, p, n);
          OneEvent(SystemOf(rates, s), Check(c, Estimate(rates, i, o)), ceiling, p, n);
        }
      case Respond(c, usage) =>
        ResponseSettles(rates, ceiling, s, c, usage, p, n);
        OneEvent(SystemOf(rates, s), EventsOf(rates, ceiling, s, m)[0], ceiling, p, n);
    }
  }

  /** Callers that keep their promises produce a schedule. */
  lemma {:induction false} MovesAreASchedule(
    rates: Rates, ceiling: real, s: Callers, moves: seq<Move>, p: real, n: nat)
    returns (events: seq<Event>)
    requires OrderlyRates(rates) && PromisesKept(rates, ceiling, s, moves, p, n)
    ensures Schedule(SystemOf(rates, s), events, ceiling, p, n)
    ensures Final(SystemOf(rates, s), events) == SystemOf(rates, Outcome(rates, ceiling, s, moves))
    decreases |moves|
  {
    hide Promised, Proceed, SystemOf, Schedule, Final, EventsOf;
    if moves == [] {
      events := [];
      EmptySchedule(SystemOf(rates, s), ceiling, p, n);
    } else {
      var next := Proceed(rates, ceiling, s, moves[0]);
      MoveIsAllowed(rates, ceiling, s, moves[0], p, n);
      var rest := MovesAreASchedule(rates, ceiling, next, moves[1..], p, n);
      events := EventsOf(rates, ceiling, s, moves[0]) + rest;
      ScheduleSum(SystemOf(rates, s), EventsOf(rates, ceiling, s, moves[0]), rest, ceiling, p, n);
    }
  }

  lemma EmptySchedule(s: System, ceiling: real, p: real, n: nat)
    ensures Schedule(s, [], ceiling, p, n) && Final(s, []) == s
  {
  }

  lemma CallersStayInBudget(rates: Rates, ceiling: real, moves: seq<Move>, p: real, n: nat)
    requires OrderlyRates(rates) && p >= 0.0 && PromisesKept(rates, ceiling, Callers(0.0, map[]), moves, p, n)
    ensures var spent := Outcome(rates, ceiling, Callers(0.0, map[]), moves).spent;
      spent == 0.0 || (n > 0 && spent <= ceiling + (n - 1) as real * p)
  {
    var s := Callers(0.0, map[]);
    var events := MovesAreASchedule(rates, ceiling, s, moves, p, n);
    assert SystemOf(rates, s) == System(0.0, map[]);
    BudgetHolds(events, ceiling, p, n);
  }

  lemma EstimateIsNonNegative(rates: Rates, input: nat, output: nat)
    requires NonNegative(rates)
    ensures Estimate(rates, input, output) >= 0.0
  {
    ChargeMono(input, input, rates.input, rates.input);
    ChargeMono(output, output, rates.output, rates.output);
  }

  /** One move on the guard itself; a dispatch goes ahead exactly when the guard lets it through. */
  method Admit(guard: CostGuard, m: Move, ghost s: Callers) returns (ahead: bool)
    requires guard.Valid() && s.spent == guard.spent
    requires NonNegative(guard.rates)
    modifies guard
    ensures guard.Valid() && guard.spent == Proceed(guard.rates, guard.hardCeiling, s, m).spent
    ensures m.Dispatch? && m.call !in s.open ==>
      (ahead <==> m.call in Proceed(guard.rates, guard.hardCeiling, s, m).open)
  {
    hide Estimate, Cost;
    ahead := false;
    match m {
      case Dispatch(_, input, output) =>
        var projected := guard.EstimateCost(input, output);
        EstimateIsNonNegative(guard.rates, input, output);
        var refused := guard.CheckBeforeDispatch(projected.value);
        ahead := refused.None?;
      case Respond(_, usage) =>
        ghost var before := guard.recorded;
        var cost, warns := guard.RecordUsage(usage);
        if cost.Ok? {
          assert guard.recorded[..|before|] == before;
        }
    }
  }

  /** Any interleaving of checks and records on a new guard keeps its spending within the bound. */
  method ServeCallers(guard: CostGuard, moves: seq<Move>, ghost p: real, ghost n: nat)
    requires guard.Valid() && guard.spent == 0.0 && OrderlyRates(guard.rates) && p >= 0.0
    requires PromisesKept(guard.rates, guard.hardCeiling, Callers(0.0, map[]), moves, p, n)
    modifies guard
    ensures guard.Valid()
    ensures guard.spent == Outcome(guard.rates, guard.hardCeiling, Callers(0.0, map[]), moves).spent
    ensures guard.spent == 0.0 || (n > 0 && guard.spent <= guard.hardCeiling + (n - 1) as real * p)
  {
    hide Proceed, PromisesKept;
    ghost var s := Callers(0.0, map[]);
    CallersStayInBudget(guard.rates, guard.hardCeiling, moves, p, n);
    assert moves[0..] == moves;
    for i := 0 to |moves|
      invariant guard.Valid() && guard.spent == s.spent
      invariant Outcome(guard.rates, guard.hardCeiling, s, moves[i..]) ==
        Outcome(guard.rates, guard.hardCeiling, Callers(0.0, map[]), moves)
    {
      var ahead := Admit(guard, moves[i], s);
      assert moves[i..][1..] == moves[i + 1..];
      s := Proceed(guard.rates, guard.hardCeiling, s, moves[i]);
    }
  }

  // ---- the bound is reached ------------------------------------------------------------------------

  function Checks(from: nat, n: nat, p: real): seq<Event>
    decreases n
  {
    if n == 0 then [] else [Check(from, p)] + Checks(from + 1, n - 1, p)
  }

  function Records(from: nat, n: nat, p: real): seq<Event>
    decreases n
  {
    if n == 0 then [] else [Record(from, p)] + Records(from + 1, n - 1, p)
  }

  function Open(from: nat, n: nat, p: real): map<CallId, real> {
    if n == 0 then map[] else Open(from, n - 1, p)[from + n - 1 := p]
  }

  lemma {:induction false} OpenRange(from: nat, n: nat, p: real)
    ensures forall c :: c in Open(from, n, p) <==> from <= c < from + n
    ensures forall c :: c in Open(from, n, p) ==> Open(from, n, p)[c] == p
    ensures |Open(from, n, p)| == n
  {
    if n > 0 {
      OpenRange(from, n - 1, p);
    }
  }

  lemma OpenFront(from: nat, n: nat, p: real)
    requires n > 0
    ensures Open(from, n, p) - {from} == Open(from + 1, n - 1, p)
  {
    hide Open;
    OpenRange(from, n, p);
    OpenRange(from + 1, n - 1, p);
  }

  lemma {:induction false} ScheduleSum(s: System, a: seq<Event>, b: seq<Event>, ceiling: real, p: real, n: nat)
    ensures Schedule(s, a + b, ceiling, p, n) <==>
      Schedule(s, a, ceiling, p, n) && Schedule(Final(s, a), b, ceiling, p, n)
    ensures Final(s, a + b) == Final(Final(s, a), b)
    decreases |a|
  {
    if a == [] {
      assert a + b == b;
    } else {
      assert (a + b)[1..] == a[1..] + b;
      ScheduleSum(After(s, a[0]), a[1..], b, ceiling, p, n);
    }
  }

  lemma RecordFront(s: System, from: nat, n: nat, p: real, ceiling: real, limit: nat)
    requires p >= 0.0 && n > 0 && s.inFlight == Open(from, n, p)
    ensures Allowed(s, Record(from, p), ceiling, p, limit)
    ensures After(s, Record(from, p)) == System(s.spent + p, Open(from + 1, n - 1, p))
  {
    hide Open;
    OpenRange(from, n, p);
    OpenFront(from, n, p);
  }

  lemma {:induction false} RecordsSpend(s: System, from: nat, n: nat, p: real, ceiling: real, limit: nat)
    requires p >= 0.0 && s.inFlight == Open(from, n, p)
    ensures Schedule(s, Records(from, n, p), ceiling, p, limit)
    ensures Final(s, Records(from, n, p)).spent == s.spent + Times(n, p)
    decreases n
  {
    hide Open, Allowed, After;
    if n > 0 {
      RecordFront(s, from, n, p, ceiling, limit);
      RecordsSpend(After(s, Record(from, p)), from + 1, n - 1, p, ceiling, limit);
      assert Records(from, n, p)[1..] == Records(from + 1, n - 1, p);
    }
  }

  lemma CheckNext(spent: real, open: nat, p: real, ceiling: real, limit: nat)
    requires 0.0 <= p && spent + p <= ceiling && open < limit
    ensures Allowed(System(spent, Open(0, open, p)), Check(open, p), ceiling, p, limit)
    ensures After(System(spent, Open(0, open, p)), Check(open, p)) == System(spent, Open(0, open + 1, p))
  {
    OpenRange(0, open, p);
  }

  /** While nothing is recorded, any number of calls passes the check that one of them would pass. */
  lemma {:induction false} ChecksPass(spent: real, open: nat, n: nat, p: real, ceiling: real, limit: nat)
    requires 0.0 <= p && spent + p <= ceiling && open + n <= limit
    ensures Schedule(System(spent, Open(0, open, p)), Checks(open, n, p), ceiling, p, limit)
    ensures Final(System(spent, Open(0, open, p)), Checks(open, n, p)) == System(spent, Open(0, open + n, p))
    decreases n
  {
    hide Open, Allowed, After;
    if n > 0 {
      CheckNext(spent, open, p, ceiling, limit);
      ChecksPass(spent, open + 1, n - 1, p, ceiling, limit);
      assert Checks(open, n, p)[1..] == Checks(open + 1, n - 1, p);
    }
  }

  /** Spends an amount in k sequential calls of at most p each. */
  function Sequential(k: nat, p: real, amount: real): seq<Event> {
    if k == 0 then []
    else
      var share := if amount <= p then amount else p;
      [Check(0, share), Record(0, share)] + Sequential(k - 1, p, amount - share)
  }

  lemma CallOnce(spent: real, share: real, p: real, ceiling: real, limit: nat)
    requires limit > 0 && 0.0 <= share <= p && spent + share <= ceiling
    ensures Schedule(System(spent, map[]), [Check(0, share), Record(0, share)], ceiling, p, limit)
    ensures Final(System(spent, map[]), [Check(0, share), Record(0, share)]) == System(spent + share, map[])
  {
    var s := System(spent, map[]);
    var t := After(s, Check(0, share));
    var call := [Check(0, share), Record(0, share)];
    assert call[1..] == [Record(0, share)] && call[1..][1..] == [];
    assert t.inFlight - {0} == map[];
    assert After(t, Record(0, share)) == System(spent + share, map[]);
    assert Final(s, call) == Final(t, call[1..]);
    assert Final(t, [Record(0, share)]) == Final(After(t, Record(0, share)), [Record(0, share)][1..]);
  }

  lemma {:induction false} SequentialSpends(
    k: nat, p: real, amount: real, spent: real, ceiling: real, limit: nat)
    requires limit > 0 && 0.0 <= amount <= Times(k, p) && 0.0 <= p && spent + amount <= ceiling
    ensures Schedule(System(spent, map[]), Sequential(k, p, amount), ceiling, p, limit)
    ensures Final(System(spent, map[]), Sequential(k, p, amount)) == System(spent + amount, map[])
  {
    hide Allowed, After;
    if k > 0 {
      var share := if amount <= p then amount else p;
      TimesMono(0, k - 1, p);
      CallOnce(spent, share, p, ceiling, limit);
      SequentialSpends(k - 1, p, amount - share, spent + share, ceiling, limit);
      ScheduleSum(
        System(spent, map[]), [Check(0, share), Record(0, share)], Sequential(k - 1, p, amount - share), ceiling, p,
        limit);
    }
  }

  /** Enough calls of p reach any amount. */
  lemma EnoughCalls(amount: real, p: real) returns (k: nat)
    requires 0.0 <= amount && 0.0 < p
    ensures amount <= Times(k, p)
  {
    var q := amount / p;
    assert amount == q * p && q >= 0.0;
    k := q.Floor + 1;
    TimesIsProduct(k, p);
    assert q <= k as real;
    assert q * p <= k as real * p;
  }

  /** The schedule that reaches the bound: all but p is spent one call at a time, then n calls are checked before
      the first of them is recorded. */
  function Overshoot(k: nat, n: nat, ceiling: real, p: real): seq<Event> {
    Sequential(k, p, ceiling - p) + (Checks(0, n, p) + Records(0, n, p))
  }

  lemma OvershootByAddition(k: nat, n: nat, ceiling: real, p: real)
    requires n > 0 && 0.0 < p <= ceiling && ceiling - p <= Times(k, p)
    ensures Schedule(System(0.0, map[]), Overshoot(k, n, ceiling, p), ceiling, p, n)
    ensures Final(System(0.0, map[]), Overshoot(k, n, ceiling, p)).spent == ceiling - p + Times(n, p)
  {
    hide Schedule, Final, Sequential, Checks, Records, Allowed, After;
    var start, saved := System(0.0, map[]), System(ceiling - p, map[]);
    SequentialSpends(k, p, ceiling - p, 0.0, ceiling, n);
    ChecksPass(ceiling - p, 0, n, p, ceiling, n);
    RecordsSpend(System(ceiling - p, Open(0, n, p)), 0, n, p, ceiling, n);
    ScheduleSum(saved, Checks(0, n, p), Records(0, n, p), ceiling, p, n);
    ScheduleSum(start, Sequential(k, p, ceiling - p), Checks(0, n, p) + Records(0, n, p), ceiling, p, n);
  }

  /** The bound is reached for every number of calls in flight and every projection up to the ceiling. */
  lemma BudgetBoundIsTight(n: nat, ceiling: real, p: real) returns (events: seq<Event>)
    requires n > 0 && 0.0 < p <= ceiling
    ensures Schedule(System(0.0, map[]), events, ceiling, p, n)
    ensures Final(System(0.0, map[]), events).spent == ceiling + (n - 1) as real * p
  {
    var k := EnoughCalls(ceiling - p, p);
    events := Overshoot(k, n, ceiling, p);
    OvershootByAddition(k, n, ceiling, p);
    TimesIsProduct(n - 1, p);
  }

  // ---- callers reach it ----------------------------------------------------------------------------

  /** A response that used exactly what was estimated. */
  function FullUsage(input: nat, output: nat): Option<Usage> {
    Some(Usage(Tokens(input), Tokens(output), Absent))
  }

  lemma FullUsageCostsEstimate(rates: Rates, input: nat, output: nat)
    ensures Parse(FullUsage(input, output)) == Some((input, 0, output))
    ensures Cost(rates, input, 0, output) == Estimate(rates, input, output)
  {
    assert Charge(0, rates.cached) == 0.0;
  }

  function OneByOne(k: nat, input: nat, output: nat): seq<Move> {
    if k == 0 then []
    else [Dispatch(0, input, output), Respond(0, FullUsage(input, output))] + OneByOne(k - 1, input, output)
  }

  function DispatchAll(from: nat, n: nat, input: nat, output: nat): seq<Move>
    decreases n
  {
    if n == 0 then [] else [Dispatch(from, input, output)] + DispatchAll(from + 1, n - 1, input, output)
  }

  function RespondAll(from: nat, n: nat, input: nat, output: nat): seq<Move>
    decreases n
  {
    if n == 0 then [] else [Respond(from, FullUsage(input, output))] + RespondAll(from + 1, n - 1, input, output)
  }

  function OpenCalls(from: nat, n: nat, input: nat, output: nat): map<CallId, (nat, nat)> {
    if n == 0 then map[] else OpenCalls(from, n - 1, input, output)[from + n - 1 := (input, output)]
  }

  lemma {:induction false} OpenCallsRange(from: nat, n: nat, input: nat, output: nat)
    ensures forall c :: c in OpenCalls(from, n, input, output) <==> from <= c < from + n
    ensures forall c :: c in OpenCalls(from, n, input, output) ==>
      OpenCalls(from, n, input, output)[c] == (input, output)
    ensures |OpenCalls(from, n, input, output)| == n
  {
    if n > 0 {
      OpenCallsRange(from, n - 1, input, output);
    }
  }

  lemma OpenCallsFront(from: nat, n: nat, input: nat, output: nat)
    requires n > 0
    ensures OpenCalls(from, n, input, output) - {from} == OpenCalls(from + 1, n - 1, input, output)
  {
    hide OpenCalls;
    OpenCallsRange(from, n, input, output);
    OpenCallsRange(from + 1, n - 1, input, output);
  }

  lemma {:induction false} MovesSum(
    rates: Rates, ceiling: real, s: Callers, a: seq<Move>, b: seq<Move>, p: real, n: nat)
    ensures PromisesKept(rates, ceiling, s, a + b, p, n) <==>
      PromisesKept(rates, ceiling, s, a, p, n) && PromisesKept(rates, ceiling, Outcome(rates, ceiling, s, a), b, p, n)
    ensures Outcome(rates, ceiling, s, a + b) == Outcome(rates, ceiling, Outcome(rates, ceiling, s, a), b)
    decreases |a|
  {
    hide Proceed, Promised;
    if a == [] {
      assert a + b == b;
    } else {
      assert (a + b)[1..] == a[1..] + b;
      MovesSum(rates, ceiling, Proceed(rates, ceiling, s, a[0]), a[1..], b, p, n);
    }
  }

  lemma OneMove(rates: Rates, ceiling: real, s: Callers, m: Move, p: real, n: nat)
    requires Promised(rates, s, m, p, n)
    ensures PromisesKept(rates, ceiling, s, [m], p, n)
    ensures Outcome(rates, ceiling, s, [m]) == Proceed(rates, ceiling, s, m)
  {
    hide Proceed, Promised;
    assert [m][1..] == [];
    assert Outcome(rates, ceiling, s, [m]) == Outcome(rates, ceiling, Proceed(rates, ceiling, s, m), []);
  }

  lemma DispatchNext(rates: Rates, ceiling: real, spent: real, open: nat, input: nat, output: nat, n: nat)
    requires spent + Estimate(rates, input, output) <= ceiling && open < n
    ensures
      var s, m := Callers(spent, OpenCalls(0, open, input, output)), Dispatch(open, input, output);
      Promised(rates, s, m, Estimate(rates, input, output), n) &&
      Proceed(rates, ceiling, s, m) == Callers(spent, OpenCalls(0, open + 1, input, output))
  {
    hide Estimate;
    OpenCallsRange(0, open, input, output);
  }

  lemma RespondFront(
    rates: Rates, ceiling: real, spent: real, from: nat, k: nat, input: nat, output: nat, p: real, n: nat)
    requires k > 0
    ensures
      var s, m := Callers(spent, OpenCalls(from, k, input, output)), Respond(from, FullUsage(input, output));
      Promised(rates, s, m, p, n) &&
      Proceed(rates, ceiling, s, m) ==
      Callers(spent + Estimate(rates, input, output), OpenCalls(from + 1, k - 1, input, output))
  {
    hide Estimate, Cost, OpenCalls, Parse;
    FullUsageCostsEstimate(rates, input, output);
    OpenCallsRange(from, k, input, output);
    OpenCallsFront(from, k, input, output);
  }

  lemma {:induction false} DispatchesPass(
    rates: Rates, ceiling: real, spent: real, open: nat, k: nat, input: nat, output: nat, n: nat)
    requires spent + Estimate(rates, input, output) <= ceiling && open + k <= n
    ensures
      var s, p := Callers(spent, OpenCalls(0, open, input, output)), Estimate(rates, input, output);
      PromisesKept(rates, ceiling, s, DispatchAll(open, k, input, output), p, n) &&
      Outcome(rates, ceiling, s, DispatchAll(open, k, input, output)) ==
      Callers(spent, OpenCalls(0, open + k, input, output))
    decreases k
  {
    hide Estimate, OpenCalls, Promised, Proceed;
    if k > 0 {
      DispatchNext(rates, ceiling, spent, open, input, output, n);
      DispatchesPass(rates, ceiling, spent, open + 1, k - 1, input, output, n);
      assert DispatchAll(open, k, input, output)[1..] == DispatchAll(open + 1, k - 1, input, output);
    }
  }

  lemma {:induction false} ResponsesSpend(
    rates: Rates, ceiling: real, spent: real, from: nat, k: nat, input: nat, output: nat, p: real, n: nat)
    ensures
      var s := Callers(spent, OpenCalls(from, k, input, output));
      PromisesKept(rates, ceiling, s, RespondAll(from, k, input, output), p, n) &&
      Outcome(rates, ceiling, s, RespondAll(from, k, input, output)).spent ==
      spent + Times(k, Estimate(rates, input, output))
    decreases k
  {
    hide Estimate, OpenCalls, Promised, Proceed;
    if k > 0 {
      RespondFront(rates, ceiling, spent, from, k, input, output, p, n);
      ResponsesSpend(
        rates, ceiling, spent + Estimate(rates, input, output), from + 1, k - 1, input, output, p, n);
      assert RespondAll(from, k, input, output)[1..] == RespondAll(from + 1, k - 1, input, output);
    }
  }

  lemma NoOpenCalls(from: nat, input: nat, output: nat)
    ensures OpenCalls(from, 0, input, output) == map[]
  {
  }

  lemma RoundTripCall(rates: Rates, ceiling: real, spent: real, input: nat, output: nat, n: nat)
    requires spent + Estimate(rates, input, output) <= ceiling && n > 0
    ensures
      var p, call := Estimate(rates, input, output), [Dispatch(0, input, output), Respond(0, FullUsage(input, output))];
      PromisesKept(rates, ceiling, Callers(spent, map[]), call, p, n) &&
      Outcome(rates, ceiling, Callers(spent, map[]), call) == Callers(spent + p, map[])
  {
    hide Estimate, OpenCalls, Promised, Proceed;
    var p, s := Estimate(rates, input, output), Callers(spent, map[]);
    NoOpenCalls(0, input, output);
    NoOpenCalls(1, input, output);
    DispatchNext(rates, ceiling, spent, 0, input, output, n);
    RespondFront(rates, ceiling, spent, 0, 1, input, output, p, n);
    var d, r := Dispatch(0, input, output), Respond(0, FullUsage(input, output));
    OneMove(rates, ceiling, s, d, p, n);
    OneMove(rates, ceiling, Proceed(rates, ceiling, s, d), r, p, n);
    MovesSum(rates, ceiling, s, [d], [r], p, n);
    assert [d] + [r] == [d, r];
  }

  lemma {:induction false} OneByOneSpends(
    rates: Rates, ceiling: real, spent: real, k: nat, input: nat, output: nat, n: nat)
    requires Estimate(rates, input, output) >= 0.0 && n > 0
    requires spent + Times(k, Estimate(rates, input, output)) <= ceiling
    ensures
      var p, s := Estimate(rates, input, output), Callers(spent, map[]);
      PromisesKept(rates, ceiling, s, OneByOne(k, input, output), p, n) &&
      Outcome(rates, ceiling, s, OneByOne(k, input, output)) == Callers(spent + Times(k, p), map[])
    decreases k
  {
    hide Estimate, Promised, Proceed;
    if k > 0 {
      var p := Estimate(rates, input, output);
      TimesMono(0, k - 1, p);
      RoundTripCall(rates, ceiling, spent, input, output, n);
      OneByOneSpends(rates, ceiling, spent + p, k - 1, input, output, n);
      MovesSum(
        rates, ceiling, Callers(spent, map[]), [Dispatch(0, input, output), Respond(0, FullUsage(input, output))],
        OneByOne(k - 1, input, output), p, n);
    }
  }

  function Rush(m: nat, n: nat, input: nat, output: nat): seq<Move>
    requires m > 0
  {
    OneByOne(m - 1, input, output) + (DispatchAll(0, n, input, output) + RespondAll(0, n, input, output))
  }

  lemma RushByAddition(rates: Rates, ceiling: real, input: nat, output: nat, m: nat, n: nat)
    requires NonNegative(rates) && m > 0 && n > 0 && ceiling == Times(m, Estimate(rates, input, output))
    ensures
      var p := Estimate(rates, input, output);
      PromisesKept(rates, ceiling, Callers(0.0, map[]), Rush(m, n, input, output), p, n) &&
      Outcome(rates, ceiling, Callers(0.0, map[]), Rush(m, n, input, output)).spent == ceiling + Times(n - 1, p)
  {
    hide Estimate, PromisesKept, Outcome, OneByOne, DispatchAll, RespondAll, OpenCalls;
    var p := Estimate(rates, input, output);
    EstimateIsNonNegative(rates, input, output);
    var saved := Times(m - 1, p);
    assert ceiling == p + saved && Times(n, p) == p + Times(n - 1, p);
    NoOpenCalls(0, input, output);
    OneByOneSpends(rates, ceiling, 0.0, m - 1, input, output, n);
    DispatchesPass(rates, ceiling, saved, 0, n, input, output, n);
    ResponsesSpend(rates, ceiling, saved, 0, n, input, output, p, n);
    MovesSum(
      rates, ceiling, Callers(saved, map[]), DispatchAll(0, n, input, output), RespondAll(0, n, input, output), p, n);
    MovesSum(
      rates, ceiling, Callers(0.0, map[]), OneByOne(m - 1, input, output),
      DispatchAll(0, n, input, output) + RespondAll(0, n, input, output), p, n);
  }

  /** With a ceiling of m full calls, callers that keep their promises spend m - 1 calls one by one, have n more let
      through before the first reports, and reach the bound. */
  lemma CallersReachBound(rates: Rates, input: nat, output: nat, p: real, ceiling: real, m: nat, n: nat)
    returns (moves: seq<Move>)
    requires NonNegative(rates) && m > 0 && n > 0
    requires p == Estimate(rates, input, output) && ceiling == m as real * p
    ensures PromisesKept(rates, ceiling, Callers(0.0, map[]), moves, p, n)
    ensures Outcome(rates, ceiling, Callers(0.0, map[]), moves).spent == ceiling + (n - 1) as real * p
  {
    hide Estimate, PromisesKept, Outcome, Rush;
    TimesIsProduct(m, p);
    TimesIsProduct(n - 1, p);
    moves := Rush(m, n, input, output);
    RushByAddition(rates, ceiling, input, output, m, n);
  }
}
