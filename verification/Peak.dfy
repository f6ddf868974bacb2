/** The scheduler's peak recorder: two pruned sample lists. Its events so far are kept as ghost history. */
module Peak {
  import opened PeakRules

  method FindLarger(list: seq<Sample>, cutoff: int, v: real) returns (idx: nat)
    ensures idx == Scan(list, cutoff, v)
  {
    idx := 0;
    while idx < |list|
      invariant idx <= |list| && Scan(list, cutoff, v) == idx + Scan(list[idx..], cutoff, v)
    {
      if list[idx].time > cutoff && list[idx].value > v { break; }
      assert list[idx..][1..] == list[idx + 1..];
      idx := idx + 1;
    }
  }

  method WindowMax(list: seq<Sample>, cutoff: int) returns (peak: real, splice: nat)
    ensures peak == MaxFrom(list, cutoff) && splice == Stale(list, cutoff)
  {
    peak, splice := 0.0, 0;
    for idx := 0 to |list|
      invariant peak == MaxFrom(list[..idx], cutoff) && splice == Stale(list[..idx], cutoff)
    {
      assert list[..idx + 1][..idx] == list[..idx];
      if list[idx].time < cutoff { splice := idx + 1; } else { peak := Max(peak, list[idx].value); }
    }
    assert list[..|list|] == list;
  }

  /** What `record` does to one of the two series. */
  method RecordSeries(s: Series, interval: nat, now: int, v: real) returns (r: Series, peak: bool)
    ensures r == PeakRules.Record(s, interval, now, v) && peak == IsPeak(s, interval, now, v)
  {
    r, peak := s, false;
    if interval == 0 {
      if v > s.peak { r, peak := s.(peak := v, peakTime := now), true; }
    } else {
      var idx := FindLarger(s.list, now - interval, v);
      if idx == |s.list| {
        r, peak := Series([], v, now), true;
      } else if idx > 0 {
        r := s.(list := s.list[idx..]);
      }
      r := r.(list := r.list + [Sample(now, v)]);
    }
  }

  /** What `toObject` does with one of them. */
  method ReadSeries(s: Series, interval: nat, now: int) returns (r: Series, peak: real)
    ensures r == Read(s, interval, now) && peak == Answer(s, interval, now)
  {
    if interval == 0 { return s, s.peak; }
    var splice: nat;
    peak, splice := WindowMax(s.list, now - interval);
    r := s.(list := s.list[splice..]);
  }

  lemma Happened(start: int, interval: nat, events: seq<Event>, e: Event)
    ensures After(start, interval, events + [e]) == Step(After(start, interval, events), interval, e)
  {
    assert (events + [e])[..|events|] == events;
  }

  class Peak {
    const interval: nat
    var active: Series
    var utilization: Series

    ghost const start: int
    ghost var activeEvents: seq<Event>
    ghost var utilizationEvents: seq<Event>

    ghost predicate Valid()
      reads this
    {
      active == After(start, interval, activeEvents) && utilization == After(start, interval, utilizationEvents)
    }

    constructor (interval: nat, now: int)
      ensures Valid() && this.interval == interval && start == now && activeEvents == [] && utilizationEvents == []
    {
      this.interval, start := interval, now;
      active, utilization, activeEvents, utilizationEvents := Empty(now), Empty(now), [], [];
    }

    method Record(now: int, activeJobs: real, load: real) returns (ret: bool)
      requires Valid()
      modifies this
      ensures Valid()
      ensures activeEvents == old(activeEvents) + [RecordEvent(now, activeJobs)]
      ensures utilizationEvents == old(utilizationEvents) + [RecordEvent(now, load)]
      ensures ret == (IsPeak(old(active), interval, now, activeJobs) || IsPeak(old(utilization), interval, now, load))
    {
      var first, second: bool;
      active, first := RecordSeries(active, interval, now, activeJobs);
      utilization, second := RecordSeries(utilization, interval, now, load);
      Happened(start, interval, activeEvents, RecordEvent(now, activeJobs));
      Happened(start, interval, utilizationEvents, RecordEvent(now, load));
      activeEvents := activeEvents + [RecordEvent(now, activeJobs)];
      utilizationEvents := utilizationEvents + [RecordEvent(now, load)];
      ret := first || second;
    }

    /** The two maxima; stale samples are dropped on the way. */
    method ToObject(now: int) returns (activeJobs: real, load: real)
      requires Valid()
      modifies this
      ensures Valid()
      ensures activeEvents == old(activeEvents) + [ReadEvent(now)]
      ensures utilizationEvents == old(utilizationEvents) + [ReadEvent(now)]
      ensures activeJobs == Answer(old(active), interval, now) && load == Answer(old(utilization), interval, now)
      ensures interval > 0 && InOrder(old(activeEvents)) && Later(old(activeEvents), now) ==>
                activeJobs == MaxFrom(History(old(activeEvents)), now - interval)
      ensures interval > 0 && InOrder(old(utilizationEvents)) && Later(old(utilizationEvents), now) ==>
                load == MaxFrom(History(old(utilizationEvents)), now - interval)
    {
      AnswerIsMax(start, interval, activeEvents, now);
      AnswerIsMax(start, interval, utilizationEvents, now);
      active, activeJobs := ReadSeries(active, interval, now);
      utilization, load := ReadSeries(utilization, interval, now);
      Happened(start, interval, activeEvents, ReadEvent(now));
      Happened(start, interval, utilizationEvents, ReadEvent(now));
      activeEvents := activeEvents + [ReadEvent(now)];
      utilizationEvents := utilizationEvents + [ReadEvent(now)];
    }
  }

  lemma AnswerIsMax(start: int, interval: nat, events: seq<Event>, now: int)
    ensures interval > 0 && InOrder(events) && Later(events, now) ==>
              Answer(After(start, interval, events), interval, now) == MaxFrom(History(events), now - interval)
  {
    if interval > 0 && InOrder(events) && Later(events, now) { ReadsWindowMax(start, interval, events, now); }
  }
}
