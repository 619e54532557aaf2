/**
 Delivery rate limits: for each producer, delivery class and window a global counter and one counter
 a recipient, in windows aligned to the clock. Times are milliseconds and may come in any order.
 */
module RateCounters {
  import opened Common

  type Member = nat
  type Producer = string

  datatype DeliveryClass = Transactional | Informational | Suggestion

  datatype WindowKind = Burst | Hour | Day

  const BURST_WINDOW_MS: nat := 10_000

  function Size(kind: WindowKind): nat {
    match kind
    case Burst => BURST_WINDOW_MS
    case Hour => 60 * 60 * 1000
    case Day => 24 * 60 * 60 * 1000
  }

  function WindowStartFor(kind: WindowKind, now: nat): nat {
    now / Size(kind) * Size(kind)
  }

  datatype Limits = Limits(burst: Option<nat>, hourly: Option<nat>, daily: Option<nat>) {
    function Of(kind: WindowKind): Option<nat> {
      match kind
      case Burst => burst
      case Hour => hourly
      case Day => daily
    }
  }

  datatype Stream = Stream(producer: Producer, deliveryClass: DeliveryClass)

  /** `recipient` is absent for the global counter. */
  datatype CounterKey = CounterKey(stream: Stream, recipient: Option<Member>, kind: WindowKind, windowStart: nat)

  datatype Admission = Admission(stream: Stream, recipient: Member, at: nat)

  // ---- Counters ---------------------------------------------------------------------------------------

  function Count(counters: map<CounterKey, nat>, key: CounterKey): nat {
    if key in counters then counters[key] else 0
  }

  function GlobalKey(a: Admission, kind: WindowKind): CounterKey {
    CounterKey(a.stream, None, kind, WindowStartFor(kind, a.at))
  }

  function MemberKey(a: Admission, kind: WindowKind): CounterKey {
    CounterKey(a.stream, Some(a.recipient), kind, WindowStartFor(kind, a.at))
  }

  predicate Full(counters: map<CounterKey, nat>, limits: Limits, a: Admission, kind: WindowKind) {
    limits.Of(kind).Some?
    && (Count(counters, GlobalKey(a, kind)) + 1 > limits.Of(kind).value
        || Count(counters, MemberKey(a, kind)) + 1 > limits.Of(kind).value)
  }

  predicate Exceeded(counters: map<CounterKey, nat>, limits: Limits, a: Admission) {
    exists kind: WindowKind :: Full(counters, limits, a, kind)
  }

  /** The counters an admission bumps: both of every configured window. */
  predicate Bumps(limits: Limits, a: Admission, key: CounterKey) {
    limits.Of(key.kind).Some? && (key == GlobalKey(a, key.kind) || key == MemberKey(a, key.kind))
  }

  function BumpKind(counters: map<CounterKey, nat>, limits: Limits, a: Admission, kind: WindowKind)
    : map<CounterKey, nat>
  {
    if limits.Of(kind).None? then counters
    else
      var global := counters[GlobalKey(a, kind) := Count(counters, GlobalKey(a, kind)) + 1];
      global[MemberKey(a, kind) := Count(global, MemberKey(a, kind)) + 1]
  }

  function Bumped(counters: map<CounterKey, nat>, limits: Limits, a: Admission): map<CounterKey, nat> {
    BumpKind(BumpKind(BumpKind(counters, limits, a, Burst), limits, a, Hour), limits, a, Day)
  }

  /** An admission raises exactly the counters it bumps, by one. */
  lemma BumpedCounts(counters: map<CounterKey, nat>, limits: Limits, a: Admission, key: CounterKey)
    ensures Count(Bumped(counters, limits, a), key)
      == Count(counters, key) + if Bumps(limits, a, key) then 1 else 0
  {
    BumpKindCounts(counters, limits, a, Burst, key);
    var burst := BumpKind(counters, limits, a, Burst);
    BumpKindCounts(burst, limits, a, Hour, key);
    var hour := BumpKind(burst, limits, a, Hour);
    BumpKindCounts(hour, limits, a, Day, key);
  }

  lemma BumpKindCounts(counters: map<CounterKey, nat>, limits: Limits, a: Admission, kind: WindowKind, key: CounterKey)
    ensures Count(BumpKind(counters, limits, a, kind), key)
      == Count(counters, key) + if key.kind == kind && Bumps(limits, a, key) then 1 else 0
  {
  }

  // ---- The operation ------------------------------------------------------------------------------------

  const KINDS := [Burst, Hour, Day]

  class CounterTable {
    var counters: map<CounterKey, nat>

    constructor ()
      ensures counters == map[]
    {
      counters := map[];
    }

    method EnsureRateCounterRow(key: CounterKey)
      modifies this
      ensures counters.Keys == old(counters).Keys + {key}
      ensures forall k :: Count(counters, k) == Count(old(counters), k)
    {
      if key !in counters {
        counters := counters[key := 0];
      }
    }

    /** Updates a row that is there. */
    method IncrementRateCounter(key: CounterKey)
      modifies this
      ensures counters ==
        if key in old(counters) then old(counters)[key := old(counters)[key] + 1] else old(counters)
    {
      if key in counters {
        counters := counters[key := counters[key] + 1];
      }
    }

    /** Admits, and then bumps both counters of every configured window, or changes no count at all. */
    method RateLimitExceeded(limits: Limits, a: Admission) returns (exceeded: bool)
      modifies this
      ensures exceeded <==> Exceeded(old(counters), limits, a)
      ensures forall key ::
        Count(counters, key) == Count(if exceeded then old(counters) else Bumped(old(counters), limits, a), key)
    {
      ghost var before := counters;
      for k := 0 to 3
        invariant forall key :: Count(counters, key) == Count(before, key)
        invariant forall kind :: kind in KINDS[..k] && limits.Of(kind).Some? ==>
          GlobalKey(a, kind) in counters && MemberKey(a, kind) in counters
      {
        assert KINDS[..k + 1] == KINDS[..k] + [KINDS[k]];
        if limits.Of(KINDS[k]).Some? {
          EnsureRateCounterRow(GlobalKey(a, KINDS[k]));
          EnsureRateCounterRow(MemberKey(a, KINDS[k]));
        }
      }
      for k := 0 to 3
        invariant forall kind :: kind in KINDS[..k] ==> !Full(before, limits, a, kind)
      {
        assert KINDS[..k + 1] == KINDS[..k] + [KINDS[k]];
        if limits.Of(KINDS[k]).Some? {
          var limit := limits.Of(KINDS[k]).value;
          if counters[GlobalKey(a, KINDS[k])] + 1 > limit || counters[MemberKey(a, KINDS[k])] + 1 > limit {
            assert Count(counters, GlobalKey(a, KINDS[k])) == Count(before, GlobalKey(a, KINDS[k]));
            assert Count(counters, MemberKey(a, KINDS[k])) == Count(before, MemberKey(a, KINDS[k]));
            assert Full(before, limits, a, KINDS[k]);
            return true;
          }
        }
      }
      AllKindsListed();
      IncrementAll(limits, a);
      forall key ensures Count(counters, key) == Count(Bumped(before, limits, a), key) {
        BumpedCounts(before, limits, a, key);
      }
      return false;
    }

    method IncrementAll(limits: Limits, a: Admission)
      requires forall kind :: limits.Of(kind).Some? ==> GlobalKey(a, kind) in counters && MemberKey(a, kind) in counters
      modifies this
      ensures forall key ::
        Count(counters, key) == Count(old(counters), key) + if Bumps(limits, a, key) then 1 else 0
    {
      for k := 0 to 3
        invariant counters.Keys == old(counters).Keys
        invariant forall key ::
          Count(counters, key)
            == Count(old(counters), key) + (if key.kind in KINDS[..k] && Bumps(limits, a, key) then 1 else 0)
      {
        assert KINDS[..k + 1] == KINDS[..k] + [KINDS[k]];
        assert KINDS[k] !in KINDS[..k] by {
          assert KINDS[0] == Burst && KINDS[1] == Hour && KINDS[2] == Day;
        }
        if limits.Of(KINDS[k]).Some? {
          IncrementRateCounter(GlobalKey(a, KINDS[k]));
          IncrementRateCounter(MemberKey(a, KINDS[k]));
        }
      }
      AllKindsListed();
    }
  }

  lemma AllKindsListed()
    ensures forall kind: WindowKind :: kind in KINDS[..3]
  {
    assert KINDS[..3] == KINDS;
    assert KINDS[0] == Burst && KINDS[1] == Hour && KINDS[2] == Day;
    forall kind: WindowKind ensures kind in KINDS {
      match kind
      case Burst =>
      case Hour =>
      case Day =>
    }
  }

  // ---- Runs ---------------------------------------------------------------------------------------------

  /** `admitted` logs the admissions and `delivered` the notifications inserted after one. */
  datatype State = State(counters: map<CounterKey, nat>, admitted: seq<Admission>, delivered: seq<Admission>)

  /** One delivery attempt; the insert that follows an admission may still meet a duplicate. */
  datatype Attempt = Attempt(admission: Admission, inserted: bool)

  function Apply(limits: Producer -> Limits, s: State, e: Attempt): State {
    var a := e.admission;
    if Exceeded(s.counters, limits(a.stream.producer), a) then s
    else State(Bumped(s.counters, limits(a.stream.producer), a), s.admitted + [a],
               if e.inserted then s.delivered + [a] else s.delivered)
  }

  function Run(limits: Producer -> Limits, es: seq<Attempt>): State {
    if es == [] then State(map[], [], []) else Apply(limits, Run(limits, es[..|es| - 1]), es[|es| - 1])
  }

  /** How many admissions a counter stands for. */
  function CountLog(limits: Producer -> Limits, log: seq<Admission>, key: CounterKey): nat {
    if log == [] then 0
    else
      var a := log[|log| - 1];
      CountLog(limits, log[..|log| - 1], key) + if Bumps(limits(a.stream.producer), a, key) then 1 else 0
  }

  function InInterval(log: seq<Admission>, stream: Stream, from: nat, to: nat): nat {
    if log == [] then 0
    else
      var a := log[|log| - 1];
      InInterval(log[..|log| - 1], stream, from, to) + if a.stream == stream && from <= a.at < to then 1 else 0
  }

  ghost predicate CountersMatch(limits: Producer -> Limits, s: State) {
    forall key :: Count(s.counters, key) == CountLog(limits, s.admitted, key)
  }

  ghost predicate WithinLimits(limits: Producer -> Limits, s: State) {
    forall key: CounterKey :: limits(key.stream.producer).Of(key.kind).Some? ==>
      Count(s.counters, key) <= limits(key.stream.producer).Of(key.kind).value
  }

  lemma CountLogAppend(limits: Producer -> Limits, log: seq<Admission>, a: Admission, key: CounterKey)
    ensures CountLog(limits, log + [a], key)
      == CountLog(limits, log, key) + if Bumps(limits(a.stream.producer), a, key) then 1 else 0
  {
    assert (log + [a])[..|log|] == log;
  }

  lemma CounterStep(limits: Producer -> Limits, s: State, e: Attempt)
    requires CountersMatch(limits, s) && WithinLimits(limits, s)
    ensures CountersMatch(limits, Apply(limits, s, e)) && WithinLimits(limits, Apply(limits, s, e))
  {
    var a := e.admission;
    var own := limits(a.stream.producer);
    if !Exceeded(s.counters, own, a) {
      forall key
        ensures Count(Bumped(s.counters, own, a), key) == CountLog(limits, s.admitted + [a], key)
        ensures limits(key.stream.producer).Of(key.kind).Some? ==>
          Count(Bumped(s.counters, own, a), key) <= limits(key.stream.producer).Of(key.kind).value
      {
        BumpedCounts(s.counters, own, a, key);
        CountLogAppend(limits, s.admitted, a, key);
        assert !Full(s.counters, own, a, key.kind);
      }
    }
  }

  lemma {:induction false} RunCounters(limits: Producer -> Limits, es: seq<Attempt>)
    ensures CountersMatch(limits, Run(limits, es)) && WithinLimits(limits, Run(limits, es))
  {
    if es != [] {
      RunCounters(limits, es[..|es| - 1]);
      CounterStep(limits, Run(limits, es[..|es| - 1]), es[|es| - 1]);
    }
  }

  // ---- A global counter is the sum of its member counters ----------------------------------------------

  function MemberSum(counters: map<CounterKey, nat>, global: CounterKey, n: nat): nat {
    if n == 0 then 0
    else MemberSum(counters, global, n - 1) + Count(counters, global.(recipient := Some(n - 1)))
  }

  function LogSum(limits: Producer -> Limits, log: seq<Admission>, global: CounterKey, n: nat): nat {
    if n == 0 then 0
    else LogSum(limits, log, global, n - 1) + CountLog(limits, log, global.(recipient := Some(n - 1)))
  }

  lemma {:induction false} LogSumAppend(limits: Producer -> Limits, log: seq<Admission>, a: Admission,
                                        global: CounterKey, n: nat)
    requires global.recipient.None?
    ensures LogSum(limits, log + [a], global, n) == LogSum(limits, log, global, n)
      + if a.recipient < n && Bumps(limits(a.stream.producer), a, global) then 1 else 0
  {
    if n > 0 {
      LogSumAppend(limits, log, a, global, n - 1);
      CountLogAppend(limits, log, a, global.(recipient := Some(n - 1)));
    }
  }

  lemma {:induction false} LogSumIsGlobal(limits: Producer -> Limits, log: seq<Admission>, global: CounterKey, n: nat)
    requires global.recipient.None?
    requires forall i :: 0 <= i < |log| ==> log[i].recipient < n
    ensures LogSum(limits, log, global, n) == CountLog(limits, log, global)
  {
    if log == [] {
      EmptyLogSum(limits, global, n);
    } else {
      var a := log[|log| - 1];
      assert log == log[..|log| - 1] + [a];
      LogSumIsGlobal(limits, log[..|log| - 1], global, n);
      LogSumAppend(limits, log[..|log| - 1], a, global, n);
    }
  }

  lemma {:induction false} EmptyLogSum(limits: Producer -> Limits, global: CounterKey, n: nat)
    ensures LogSum(limits, [], global, n) == 0
  {
    if n > 0 {
      EmptyLogSum(limits, global, n - 1);
    }
  }

  lemma {:induction false} SumsAgree(limits: Producer -> Limits, s: State, global: CounterKey, n: nat)
    requires CountersMatch(limits, s)
    ensures MemberSum(s.counters, global, n) == LogSum(limits, s.admitted, global, n)
  {
    if n > 0 {
      SumsAgree(limits, s, global, n - 1);
    }
  }

  /**
   In every run each global counter is the sum of its member counters (recipients below `n`, for
   any `n` above them all), and no counter of a configured window exceeds its limit.
   */
  lemma GlobalIsSumOfMembers(limits: Producer -> Limits, es: seq<Attempt>, global: CounterKey, n: nat)
    requires global.recipient.None?
    requires forall i :: 0 <= i < |Run(limits, es).admitted| ==> Run(limits, es).admitted[i].recipient < n
    ensures var s := Run(limits, es);
      && Count(s.counters, global) == MemberSum(s.counters, global, n)
      && WithinLimits(limits, s)
  {
    var s := Run(limits, es);
    RunCounters(limits, es);
    SumsAgree(limits, s, global, n);
    LogSumIsGlobal(limits, s.admitted, global, n);
  }

  // ---- Any interval as long as a window -----------------------------------------------------------------

  /** An instant of a window-long interval lies in the window of its start or in the next one. */
  lemma TwoWindows(kind: WindowKind, from: nat, at: nat)
    requires from <= at < from + Size(kind)
    ensures WindowStartFor(kind, at) == WindowStartFor(kind, from)
      || WindowStartFor(kind, at) == WindowStartFor(kind, from) + Size(kind)
  {
    NearbyQuotients(Size(kind), from, at);
  }

  lemma NearbyQuotients(d: nat, from: nat, at: nat)
    requires d > 0 && from <= at < from + d
    ensures at / d * d == from / d * d || at / d * d == from / d * d + d
  {
    QuotientBounds(d, from);
    QuotientBounds(d, at);
    NearbyMultiples(d, from / d, at / d, from, at);
  }

  lemma QuotientBounds(d: nat, x: nat)
    requires d > 0
    ensures x / d * d <= x < x / d * d + d
  {
    assert x == d * (x / d) + x % d;
  }

  lemma NearbyMultiples(d: nat, q: nat, r: nat, from: nat, at: nat)
    requires q * d <= from < q * d + d && r * d <= at < r * d + d
    requires from <= at < from + d
    ensures r * d == q * d || r * d == q * d + d
  {
    if r < q {
      assert (r + 1) * d == r * d + d;
      ProductsOrdered(r + 1, q, d);
    } else if r > q + 1 {
      assert (q + 2) * d == q * d + 2 * d;
      ProductsOrdered(q + 2, r, d);
    } else {
      assert (q + 1) * d == q * d + d;
    }
  }

  lemma {:induction false} IntervalCount(limits: Producer -> Limits, log: seq<Admission>, stream: Stream,
                                         kind: WindowKind, from: nat)
    requires limits(stream.producer).Of(kind).Some?
    ensures var start := WindowStartFor(kind, from);
      InInterval(log, stream, from, from + Size(kind))
        <= CountLog(limits, log, CounterKey(stream, None, kind, start))
           + CountLog(limits, log, CounterKey(stream, None, kind, start + Size(kind)))
  {
    if log != [] {
      var a := log[|log| - 1];
      IntervalCount(limits, log[..|log| - 1], stream, kind, from);
      if a.stream == stream && from <= a.at < from + Size(kind) {
        TwoWindows(kind, from, a.at);
      }
    }
  }

  lemma InIntervalAppend(log: seq<Admission>, a: Admission, stream: Stream, from: nat, to: nat)
    ensures InInterval(log + [a], stream, from, to)
      == InInterval(log, stream, from, to) + if a.stream == stream && from <= a.at < to then 1 else 0
  {
    assert (log + [a])[..|log|] == log;
  }

  lemma {:induction false} DeliveredWithinAdmitted(limits: Producer -> Limits, es: seq<Attempt>, stream: Stream,
                                                   from: nat, to: nat)
    ensures var s := Run(limits, es);
      InInterval(s.delivered, stream, from, to) <= InInterval(s.admitted, stream, from, to)
  {
    if es != [] {
      var s, e := Run(limits, es[..|es| - 1]), es[|es| - 1];
      DeliveredWithinAdmitted(limits, es[..|es| - 1], stream, from, to);
      InIntervalAppend(s.admitted, e.admission, stream, from, to);
      InIntervalAppend(s.delivered, e.admission, stream, from, to);
    }
  }

  /**
   Any half-open interval of 10 seconds, an hour or a day holds at most twice the window's limit of
   deliveries of one producer and delivery class.
   */
  lemma TwiceTheLimit(limits: Producer -> Limits, es: seq<Attempt>, stream: Stream, kind: WindowKind, from: nat)
    requires limits(stream.producer).Of(kind).Some?
    ensures InInterval(Run(limits, es).delivered, stream, from, from + Size(kind))
      <= 2 * limits(stream.producer).Of(kind).value
  {
    var s := Run(limits, es);
    var start := WindowStartFor(kind, from);
    RunCounters(limits, es);
    DeliveredWithinAdmitted(limits, es, stream, from, from + Size(kind));
    IntervalCount(limits, s.admitted, stream, kind, from);
    var limit := limits(stream.producer).Of(kind).value;
    assert Count(s.counters, CounterKey(stream, None, kind, start)) <= limit;
    assert Count(s.counters, CounterKey(stream, None, kind, start + Size(kind))) <= limit;
  }

  // ---- Who is refused ------------------------------------------------------------------------------------

  /** Which admissions of a producer and class fall in the same window of `size` milliseconds as `at`. */
  ghost function InWindow(log: seq<Admission>, stream: Stream, at: nat, size: nat): set<nat>
    requires size > 0
  {
    set i: nat | i < |log| && log[i].stream == stream && log[i].at / size == at / size
  }

  lemma SameWindow(size: nat, a: nat, b: nat)
    requires size > 0
    ensures a / size * size == b / size * size <==> a / size == b / size
  {
    if a / size < b / size {
      MultiplesAscend(a / size, b / size, size);
    } else if b / size < a / size {
      MultiplesAscend(b / size, a / size, size);
    }
  }

  lemma MultiplesAscend(q: nat, r: nat, size: nat)
    requires size > 0 && q < r
    ensures q * size < r * size
  {
    ProductsOrdered(q + 1, r, size);
    assert (q + 1) * size == q * size + size;
  }

  /** The global counter of a window counts the admissions in it. */
  lemma {:induction false} GlobalCountsWindow(limits: Producer -> Limits, log: seq<Admission>, a: Admission,
                                              kind: WindowKind)
    requires limits(a.stream.producer).Of(kind).Some?
    ensures CountLog(limits, log, GlobalKey(a, kind)) == |InWindow(log, a.stream, a.at, Size(kind))|
  {
    if log != [] {
      var n := |log| - 1;
      GlobalCountsWindow(limits, log[..n], a, kind);
      SameWindow(Size(kind), log[n].at, a.at);
      AddedIndex(InWindow(log[..n], a.stream, a.at, Size(kind)), InWindow(log, a.stream, a.at, Size(kind)), n);
    }
  }

  /** A member's counter never exceeds the global one. */
  lemma {:induction false} MemberWithinGlobal(limits: Producer -> Limits, log: seq<Admission>, a: Admission,
                                              kind: WindowKind)
    ensures CountLog(limits, log, MemberKey(a, kind)) <= CountLog(limits, log, GlobalKey(a, kind))
  {
    if log != [] {
      MemberWithinGlobal(limits, log[..|log| - 1], a, kind);
    }
  }

  lemma FullMeans(limits: Producer -> Limits, es: seq<Attempt>, a: Admission, kind: WindowKind)
    ensures var limit, s := limits(a.stream.producer).Of(kind), Run(limits, es);
      Full(s.counters, limits(a.stream.producer), a, kind) <==>
        limit.Some? && |InWindow(s.admitted, a.stream, a.at, Size(kind))| >= limit.value
  {
    var s := Run(limits, es);
    RunCounters(limits, es);
    if limits(a.stream.producer).Of(kind).Some? {
      GlobalCountsWindow(limits, s.admitted, a, kind);
      MemberWithinGlobal(limits, s.admitted, a, kind);
    }
  }

  /** What was let through in the window of `at` has reached the limit, if there is one. */
  ghost predicate Reached(limit: Option<nat>, log: seq<Admission>, a: Admission, size: nat)
    requires size > 0
  {
    limit.Some? && |InWindow(log, a.stream, a.at, size)| >= limit.value
  }

  /**
   In every run an attempt is refused exactly if the present ten seconds, hour or day holds as many admissions of
   its producer and class as that window's limit, and is logged otherwise. A member's own counter decides nothing:
   it is held against the limit that the global one is held against.
   */
  lemma RefusedIffWindowFull(limits: Producer -> Limits, es: seq<Attempt>, e: Attempt)
    ensures var log, own := Run(limits, es).admitted, limits(e.admission.stream.producer);
      var refused := Reached(own.burst, log, e.admission, 10_000) || Reached(own.hourly, log, e.admission, 3_600_000)
                     || Reached(own.daily, log, e.admission, 86_400_000);
      Run(limits, es + [e]).admitted == if refused then log else log + [e.admission]
  {
    assert (es + [e])[..|es|] == es;
    FullMeans(limits, es, e.admission, Burst);
    FullMeans(limits, es, e.admission, Hour);
    FullMeans(limits, es, e.admission, Day);
    ExceededMeans(Run(limits, es).counters, limits(e.admission.stream.producer), e.admission);
  }

  lemma ExceededMeans(counters: map<CounterKey, nat>, limits: Limits, a: Admission)
    ensures Exceeded(counters, limits, a) <==>
      Full(counters, limits, a, Burst) || Full(counters, limits, a, Hour) || Full(counters, limits, a, Day)
  {
  }
}
