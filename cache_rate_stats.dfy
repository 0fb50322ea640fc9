/**
 * The counters behind the cache hit rate of a build: each finished rule counts towards exactly
 * one counter according to how the artifact cache answered, the number of rules is overwritten
 * whenever it is (re)computed, and the statistics of several builds sum field by field.
 */
module CacheRateStats {
  import opened Wrappers

  datatype CacheResultType =
    | Miss
    | Hit
    | Error
    | SoftError
    | Ignored
    | Skipped
    | Contains
    | LocalKeyUnchangedHit

  datatype BuildRuleStatus = Success | Fail | Canceled

  /** The part of a `BuildRuleEvent.Finished` the counters look at. */
  datatype Finished = Finished(status: BuildRuleStatus, cacheResultType: CacheResultType)

  /** The events the keeper listens to. */
  datatype KeeperEvent =
    | RuleFinished(finished: Finished)
    | RuleCountCalculated(numRules: int)
    | UnskippedRuleCountUpdated(numRules: int)

  /** A rule may not finish with a CONTAINS cache result. */
  datatype StatsError = FinishedWithContains

  /** The keeper's counters, as one value. */
  datatype Counters = Counters(
    updated: int,
    cacheMisses: int,
    cacheErrors: int,
    cacheHits: int,
    cacheIgnores: int,
    cacheLocalKeyUnchangedHits: int,
    ruleCount: int)

  const Zero: Counters := Counters(0, 0, 0, 0, 0, 0, 0)

  /** `CacheRateStatsUpdateEvent`: the counts one build reports. */
  datatype CacheRateStatsUpdateEvent = CacheRateStatsUpdateEvent(
    cacheMissCount: int,
    cacheErrorCount: int,
    cacheHitCount: int,
    ruleCount: int,
    updated: int)

  /** buildRuleFinished on the counters: the error leaves them as they were. */
  function RecordFinished(c: Counters, finished: Finished): (r: Result<Counters, StatsError>)
    ensures r.Err? <==> finished.status != Canceled && finished.cacheResultType == Contains
    ensures r.Ok? ==>
      r.value.ruleCount == c.ruleCount && r.value.updated >= c.updated
      && r.value.cacheMisses >= c.cacheMisses && r.value.cacheErrors >= c.cacheErrors
      && r.value.cacheHits >= c.cacheHits && r.value.cacheIgnores >= c.cacheIgnores
      && r.value.cacheLocalKeyUnchangedHits >= c.cacheLocalKeyUnchangedHits
  {
    if finished.status == Canceled then Ok(c)
    else
      var t := finished.cacheResultType;
      if t == Contains then Err(FinishedWithContains)
      else
        var c1 := match t
          case Miss => c.(cacheMisses := c.cacheMisses + 1)
          case Error => c.(cacheErrors := c.cacheErrors + 1)
          case SoftError => c.(cacheErrors := c.cacheErrors + 1)
          case Hit => c.(cacheHits := c.cacheHits + 1)
          case Ignored => c.(cacheIgnores := c.cacheIgnores + 1)
          case Skipped => c
          case LocalKeyUnchangedHit => c.(cacheLocalKeyUnchangedHits := c.cacheLocalKeyUnchangedHits + 1);
        Ok(if t != LocalKeyUnchangedHit then c1.(updated := c1.updated + 1) else c1)
  }

  /** One event on the counters. */
  function Record(c: Counters, e: KeeperEvent): Result<Counters, StatsError> {
    match e
    case RuleFinished(finished) => RecordFinished(c, finished)
    case RuleCountCalculated(n) => Ok(c.(ruleCount := n))
    case UnskippedRuleCountUpdated(n) => Ok(c.(ruleCount := n))
  }

  /** The counters after the events, first to last, stopping at the first error. */
  function Replay(c: Counters, events: seq<KeeperEvent>): Result<Counters, StatsError>
    decreases |events|
  {
    if events == [] then Ok(c)
    else match Record(c, events[0])
      case Err(e) => Err(e)
      case Ok(c1) => Replay(c1, events[1..])
  }

  /** `getStats`: the current counter values. */
  function StatsOf(c: Counters): CacheRateStatsUpdateEvent {
    CacheRateStatsUpdateEvent(c.cacheMisses, c.cacheErrors, c.cacheHits, c.ruleCount, c.updated)
  }

  // ---------------------------------------------------------------------------------------------
  // Counting

  /** A finished event the counters look at: a rule that was not cancelled, with result `t`. */
  predicate Counts(e: KeeperEvent, t: CacheResultType) {
    e.RuleFinished? && e.finished.status != Canceled && e.finished.cacheResultType == t
  }

  /** The number of events of `events` that `Counts` towards a result in `ts`. */
  function CountOf(events: seq<KeeperEvent>, ts: set<CacheResultType>): nat {
    if events == [] then 0
    else (if events[0].RuleFinished? && events[0].finished.status != Canceled
              && events[0].finished.cacheResultType in ts then 1 else 0)
         + CountOf(events[1..], ts)
  }

  /** The value the last rule-count event of `events` sets, or `initial` if there is none. */
  function LastRuleCount(initial: int, events: seq<KeeperEvent>): int
    decreases |events|
  {
    if events == [] then initial
    else LastRuleCount(if events[0].RuleFinished? then initial else events[0].numRules, events[1..])
  }

  /** No counted rule finished with a CONTAINS result. */
  predicate NoContains(events: seq<KeeperEvent>) {
    forall i | 0 <= i < |events| :: !Counts(events[i], Contains)
  }

  const AllButLocalUnchanged: set<CacheResultType> :=
    {Miss, Hit, Error, SoftError, Ignored, Skipped, Contains}

  /**
   * A CONTAINS result is an error: replaying a history fails exactly when some rule not
   * cancelled finished with CONTAINS.
   */
  lemma {:induction false} ReplayFailsOnContains(c: Counters, events: seq<KeeperEvent>)
    ensures Replay(c, events).Err? <==> !NoContains(events)
    decreases |events|
  {
    if events != [] {
      var r := Record(c, events[0]);
      if r.Ok? {
        ReplayFailsOnContains(r.value, events[1..]);
        if !NoContains(events) {
          var i :| 0 <= i < |events| && Counts(events[i], Contains);
          assert i != 0;
          assert events[1..][i - 1] == events[i];
        }
        if !NoContains(events[1..]) {
          var i :| 0 <= i < |events[1..]| && Counts(events[1..][i], Contains);
          assert events[1..][i] == events[i + 1];
        }
      } else {
        assert Counts(events[0], Contains);
      }
    }
  }

  /**
   * Each counter counts exactly its events: misses count MISS, errors count ERROR and
   * SOFT_ERROR, hits count HIT, ignores count IGNORED, local-unchanged hits count
   * LOCAL_KEY_UNCHANGED_HIT, and `updated` counts every result but LOCAL_KEY_UNCHANGED_HIT.
   * A cancelled rule counts nowhere, a SKIPPED result only towards `updated`, and the rule count
   * is the one the last rule-count event set.
   */
  lemma {:induction false} ReplayCounts(c: Counters, events: seq<KeeperEvent>)
    requires NoContains(events)
    ensures var r := Replay(c, events);
      r.Ok?
      && r.value.cacheMisses == c.cacheMisses + CountOf(events, {Miss})
      && r.value.cacheErrors == c.cacheErrors + CountOf(events, {Error, SoftError})
      && r.value.cacheHits == c.cacheHits + CountOf(events, {Hit})
      && r.value.cacheIgnores == c.cacheIgnores + CountOf(events, {Ignored})
      && r.value.cacheLocalKeyUnchangedHits == c.cacheLocalKeyUnchangedHits + CountOf(events, {LocalKeyUnchangedHit})
      && r.value.updated == c.updated + CountOf(events, AllButLocalUnchanged)
      && r.value.ruleCount == LastRuleCount(c.ruleCount, events)
    decreases |events|
  {
    if events != [] {
      assert NoContains(events[1..]) by {
        forall i | 0 <= i < |events[1..]| ensures !Counts(events[1..][i], Contains) {
          assert events[1..][i] == events[i + 1];
        }
      }
      assert !Counts(events[0], Contains);
      var c1 := Record(c, events[0]).value;
      ReplayCounts(c1, events[1..]);
    }
  }

  /** A cancelled rule changes no counter, whatever its cache result. */
  lemma CanceledIsIgnored(c: Counters, t: CacheResultType)
    ensures RecordFinished(c, Finished(Canceled, t)) == Ok(c)
  {
  }

  /**
   * A rule that was not cancelled changes exactly one counter besides `updated` (none for
   * SKIPPED), by one, and `updated` by one unless its result is LOCAL_KEY_UNCHANGED_HIT.
   */
  lemma OneCounterPerRule(c: Counters, finished: Finished)
    requires finished.status != Canceled && finished.cacheResultType != Contains
    ensures var r := RecordFinished(c, finished);
      var t := finished.cacheResultType;
      r.Ok? && r.value.ruleCount == c.ruleCount
      && (r.value.updated - c.updated) + (r.value.cacheLocalKeyUnchangedHits - c.cacheLocalKeyUnchangedHits) == 1
      && (r.value.cacheMisses - c.cacheMisses) + (r.value.cacheErrors - c.cacheErrors) + (r.value.cacheHits - c.cacheHits)
         + (r.value.cacheIgnores - c.cacheIgnores) + (r.value.cacheLocalKeyUnchangedHits - c.cacheLocalKeyUnchangedHits)
         == (if t == Skipped then 0 else 1)
  {
  }

  // ---------------------------------------------------------------------------------------------
  // Aggregation

  /** The field-wise sum of two reports. */
  function Plus(a: CacheRateStatsUpdateEvent, b: CacheRateStatsUpdateEvent): CacheRateStatsUpdateEvent {
    CacheRateStatsUpdateEvent(
      a.cacheMissCount + b.cacheMissCount, a.cacheErrorCount + b.cacheErrorCount, a.cacheHitCount + b.cacheHitCount,
      a.ruleCount + b.ruleCount, a.updated + b.updated)
  }

  const NoStats: CacheRateStatsUpdateEvent := CacheRateStatsUpdateEvent(0, 0, 0, 0, 0)

  /** The reports summed, first to last. */
  function Total(statsEvents: seq<CacheRateStatsUpdateEvent>): CacheRateStatsUpdateEvent {
    if statsEvents == [] then NoStats else Plus(statsEvents[0], Total(statsEvents[1..]))
  }

  /** getAggregatedCacheRateStats: adds every report into five running sums. */
  method GetAggregatedCacheRateStats(statsEvents: seq<CacheRateStatsUpdateEvent>) returns (r: CacheRateStatsUpdateEvent)
    ensures r == Total(statsEvents)
  {
    var cacheMisses, cacheErrors, cacheHits, totalRuleCount, updatedRuleCount := 0, 0, 0, 0, 0;
    for i := 0 to |statsEvents|
      invariant Plus(CacheRateStatsUpdateEvent(cacheMisses, cacheErrors, cacheHits, totalRuleCount, updatedRuleCount),
                     Total(statsEvents[i..])) == Total(statsEvents)
    {
      var stats := statsEvents[i];
      assert statsEvents[i..][1..] == statsEvents[i + 1..];
      cacheMisses := cacheMisses + stats.cacheMissCount;
      cacheErrors := cacheErrors + stats.cacheErrorCount;
      cacheHits := cacheHits + stats.cacheHitCount;
      totalRuleCount := totalRuleCount + stats.ruleCount;
      updatedRuleCount := updatedRuleCount + stats.updated;
    }
    assert statsEvents[|statsEvents|..] == [];
    r := CacheRateStatsUpdateEvent(cacheMisses, cacheErrors, cacheHits, totalRuleCount, updatedRuleCount);
  }

  /** Aggregating a concatenation sums the aggregates of the parts. */
  lemma {:induction false} TotalAppend(a: seq<CacheRateStatsUpdateEvent>, b: seq<CacheRateStatsUpdateEvent>)
    ensures Total(a + b) == Plus(Total(a), Total(b))
    decreases |a|
  {
    if a == [] {
      assert a + b == b;
    } else {
      assert (a + b)[0] == a[0] && (a + b)[1..] == a[1..] + b;
      TotalAppend(a[1..], b);
      PlusAssociates(a[0], Total(a[1..]), Total(b));
    }
  }

  lemma PlusAssociates(x: CacheRateStatsUpdateEvent, y: CacheRateStatsUpdateEvent, z: CacheRateStatsUpdateEvent)
    ensures Plus(x, Plus(y, z)) == Plus(Plus(x, y), z)
  {
  }

  /**
   * The aggregate does not depend on the order the collection yields its reports in: any
   * rearrangement of the same reports sums to the same counts.
   */
  lemma {:induction false} TotalIgnoresOrder(a: seq<CacheRateStatsUpdateEvent>, b: seq<CacheRateStatsUpdateEvent>)
    requires multiset(a) == multiset(b)
    ensures Total(a) == Total(b)
    decreases |a|
  {
    if a != [] {
      var x := a[0];
      assert x in multiset(b);
      var k :| 0 <= k < |b| && b[k] == x;
      var rest := b[..k] + b[k + 1..];
      MultisetWithout(b, k);
      TotalWithout(b, k);
      assert a == [x] + a[1..];
      assert multiset(a) == multiset{x} + multiset(a[1..]);
      assert multiset(a[1..]) == multiset(a) - multiset{x};
      assert multiset(rest) == multiset(b) - multiset{x};
      TotalIgnoresOrder(a[1..], rest);
    }
  }

  /** Taking one report out of the collection takes it out of its multiset. */
  lemma MultisetWithout(b: seq<CacheRateStatsUpdateEvent>, k: nat)
    requires k < |b|
    ensures multiset(b) == multiset(b[..k] + b[k + 1..]) + multiset{b[k]}
  {
    var x, pre, post := b[k], b[..k], b[k + 1..];
    assert b == pre + [x] + post;
    assert multiset(pre + post) == multiset(pre) + multiset(post);
  }

  /** Taking one report out of the collection takes it out of the aggregate. */
  lemma TotalWithout(b: seq<CacheRateStatsUpdateEvent>, k: nat)
    requires k < |b|
    ensures Total(b) == Plus(b[k], Total(b[..k] + b[k + 1..]))
  {
    var x, pre, post := b[k], b[..k], b[k + 1..];
    assert b == pre + ([x] + post);
    TotalAppend(pre, [x] + post);
    TotalAppend(pre, post);
    assert ([x] + post)[1..] == post;
    assert Total([x] + post) == Plus(x, Total(post));
    PlusAssociates(x, Total(pre), Total(post));
    PlusAssociates(Total(pre), x, Total(post));
    assert Plus(x, Total(pre)) == Plus(Total(pre), x);
  }

  /** The aggregate of one keeper's report alone is that report. */
  lemma TotalOfOne(s: CacheRateStatsUpdateEvent)
    ensures Total([s]) == s
  {
  }

  // ---------------------------------------------------------------------------------------------
  // The keeper

  class CacheRateStatsKeeper {
    var updated: int
    var cacheMisses: int
    var cacheErrors: int
    var cacheHits: int
    var cacheIgnores: int
    var cacheLocalKeyUnchangedHits: int
    var ruleCount: int

    function Snapshot(): Counters
      reads this
    {
      Counters(updated, cacheMisses, cacheErrors, cacheHits, cacheIgnores, cacheLocalKeyUnchangedHits, ruleCount)
    }

    constructor()
      ensures Snapshot() == Zero
    {
      updated, cacheMisses, cacheErrors, cacheHits := 0, 0, 0, 0;
      cacheIgnores, cacheLocalKeyUnchangedHits, ruleCount := 0, 0, 0;
    }

    method BuildRuleFinished(finished: Finished) returns (r: Result<(), StatsError>)
      modifies this
      ensures match RecordFinished(old(Snapshot()), finished)
        case Ok(c) => r.Ok? && Snapshot() == c
        case Err(e) => r == Err(e) && Snapshot() == old(Snapshot())
    {
      if finished.status == Canceled {
        return Ok(());
      }
      match finished.cacheResultType {
        case Miss => cacheMisses := cacheMisses + 1;
        case Error => cacheErrors := cacheErrors + 1;
        case SoftError => cacheErrors := cacheErrors + 1;
        case Hit => cacheHits := cacheHits + 1;
        case Ignored => cacheIgnores := cacheIgnores + 1;
        case Skipped =>
        case Contains => return Err(FinishedWithContains);
        case LocalKeyUnchangedHit => cacheLocalKeyUnchangedHits := cacheLocalKeyUnchangedHits + 1;
      }
      if finished.cacheResultType != LocalKeyUnchangedHit {
        updated := updated + 1;
      }
      return Ok(());
    }

    method RuleCountCalculated(numRules: int)
      modifies this
      ensures Snapshot() == old(Snapshot()).(ruleCount := numRules)
    {
      ruleCount := numRules;
    }

    method RuleCountUpdated(numRules: int)
      modifies this
      ensures Snapshot() == old(Snapshot()).(ruleCount := numRules)
    {
      ruleCount := numRules;
    }

    function GetStats(): (s: CacheRateStatsUpdateEvent)
      reads this
      ensures s == StatsOf(Snapshot())
    {
      CacheRateStatsUpdateEvent(cacheMisses, cacheErrors, cacheHits, ruleCount, updated)
    }
  }

  /**
   * What a fresh keeper reports after a history with no CONTAINS result: the number of MISS,
   * ERROR or SOFT_ERROR, and HIT results of rules that were not cancelled, the last rule count,
   * and the number of such rules whose result is not LOCAL_KEY_UNCHANGED_HIT.
   */
  lemma StatsAfter(events: seq<KeeperEvent>)
    requires NoContains(events)
    ensures Replay(Zero, events).Ok?
    ensures StatsOf(Replay(Zero, events).value) == CacheRateStatsUpdateEvent(
      CountOf(events, {Miss}), CountOf(events, {Error, SoftError}), CountOf(events, {Hit}),
      LastRuleCount(0, events), CountOf(events, AllButLocalUnchanged))
  {
    ReplayCounts(Zero, events);
  }
}
