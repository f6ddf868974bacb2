/** Sliding-window maxima: a pruned list of samples against the full history it stands for. */
module PeakRules {

  /** Times are whole milliseconds. */
  datatype Sample = Sample(time: int, value: real)

  datatype Series = Series(list: seq<Sample>, peak: real, peakTime: int)

  function Empty(now: int): Series { Series([], 0.0, now) }

  predicate Beats(k: Sample, cutoff: int, v: real) { k.time > cutoff && k.value > v }

  /** Where the scan of `record` stops. */
  function Scan(list: seq<Sample>, cutoff: int, v: real): (n: nat)
    ensures n <= |list|
    ensures forall i :: 0 <= i < n ==> !Beats(list[i], cutoff, v)
    ensures n < |list| ==> Beats(list[n], cutoff, v)
  {
    if list == [] || Beats(list[0], cutoff, v) then 0 else 1 + Scan(list[1..], cutoff, v)
  }

  function Record(s: Series, interval: nat, now: int, v: real): Series {
    if interval == 0 then
      if v > s.peak then s.(peak := v, peakTime := now) else s
    else
      var n := Scan(s.list, now - interval, v);
      if n == |s.list| then Series([Sample(now, v)], v, now) else s.(list := s.list[n..] + [Sample(now, v)])
  }

  /** Whether `record` reports a new peak. */
  predicate IsPeak(s: Series, interval: nat, now: int, v: real) {
    if interval == 0 then v > s.peak else Scan(s.list, now - interval, v) == |s.list|
  }

  /** How much of the list is before the cutoff, as `toObject` counts it: up to the last such sample. */
  function Stale(list: seq<Sample>, cutoff: int): (n: nat)
    ensures n <= |list|
  {
    if list == [] then 0
    else if list[|list| - 1].time < cutoff then |list|
    else Stale(list[..|list| - 1], cutoff)
  }

  function Max(a: real, b: real): real { if a >= b then a else b }

  /** The largest value at or after lo, or 0. */
  function MaxFrom(samples: seq<Sample>, lo: int): real {
    if samples == [] then 0.0
    else
      var rest, last := MaxFrom(samples[..|samples| - 1], lo), samples[|samples| - 1];
      if last.time >= lo then Max(rest, last.value) else rest
  }

  function Read(s: Series, interval: nat, now: int): Series {
    if interval == 0 then s else s.(list := s.list[Stale(s.list, now - interval)..])
  }

  function Answer(s: Series, interval: nat, now: int): real {
    if interval == 0 then s.peak else MaxFrom(s.list, now - interval)
  }

  // ---- runs

  datatype Event = RecordEvent(now: int, value: real) | ReadEvent(now: int)

  function Step(s: Series, interval: nat, e: Event): Series {
    match e case RecordEvent(now, v) => Record(s, interval, now, v) case ReadEvent(now) => Read(s, interval, now)
  }

  function After(start: int, interval: nat, events: seq<Event>): Series {
    if events == [] then Empty(start) else Step(After(start, interval, events[..|events| - 1]), interval,
      events[|events| - 1])
  }

  /** Every sample ever recorded. */
  function History(events: seq<Event>): seq<Sample> {
    if events == [] then []
    else
      var h, e := History(events[..|events| - 1]), events[|events| - 1];
      if e.RecordEvent? then h + [Sample(e.now, e.value)] else h
  }

  ghost predicate InOrder(events: seq<Event>) {
    forall i, j :: 0 <= i < j < |events| ==> events[i].now <= events[j].now
  }

  /** now comes after everything that happened, and strictly after every record. */
  ghost predicate Later(events: seq<Event>, now: int) {
    forall e <- events :: e.now <= now && (e.RecordEvent? ==> e.now < now)
  }

  // ---- what the pruned list still knows

  ghost predicate CoveredBy(h: Sample, k: Sample) { k.time >= h.time && k.value >= h.value }

  ghost predicate Covered(list: seq<Sample>, h: Sample) { exists i :: 0 <= i < |list| && CoveredBy(h, list[i]) }

  function Time(list: seq<Sample>, i: nat): int
    requires i < |list|
  {
    list[i].time
  }

  ghost predicate Sorted(list: seq<Sample>) {
    forall i: nat, j: nat {:trigger Time(list, i), Time(list, j)} :: i < j < |list| ==> Time(list, i) <= Time(list, j)
  }

  /** The list is part of the history in time order, and stands in for every sample after `gone`. */
  ghost predicate Cover(list: seq<Sample>, history: seq<Sample>, gone: int) {
    && Sorted(list)
    && (forall k <- list :: k in history)
    && (forall h <- history :: h.time > gone ==> Covered(list, h))
  }

  lemma MaxFromFacts(samples: seq<Sample>, lo: int)
    ensures MaxFrom(samples, lo) >= 0.0
    ensures forall k <- samples :: k.time >= lo ==> k.value <= MaxFrom(samples, lo)
    ensures MaxFrom(samples, lo) == 0.0 || exists k <- samples :: k.time >= lo && k.value == MaxFrom(samples, lo)
  {}

  lemma SameMax(list: seq<Sample>, history: seq<Sample>, gone: int, lo: int)
    requires Cover(list, history, gone) && gone < lo
    ensures MaxFrom(list, lo) == MaxFrom(history, lo)
  {
    MaxFromFacts(list, lo);
    MaxFromFacts(history, lo);
    if MaxFrom(history, lo) != 0.0 {
      var h :| h in history && h.time >= lo && h.value == MaxFrom(history, lo);
      assert Covered(list, h);
      var i :| 0 <= i < |list| && CoveredBy(h, list[i]);
      assert list[i] in list;
    }
  }

  /** A sample still in the window was covered by one that stays, or by one the new sample outweighs. */
  lemma NewestCovers(list: seq<Sample>, n: nat, now: int, v: real, cutoff: int, h: Sample)
    requires n == Scan(list, cutoff, v) && Covered(list, h) && h.time > cutoff && forall k <- list :: k.time <= now
    ensures Covered(list[n..] + [Sample(now, v)], h)
  {
    var kept := list[n..] + [Sample(now, v)];
    var i :| 0 <= i < |list| && CoveredBy(h, list[i]);
    assert list[i] in list;
    if i < n {
      assert !Beats(list[i], cutoff, v);
      assert CoveredBy(h, kept[|kept| - 1]);
    } else {
      assert kept[i - n] == list[i];
    }
  }

  /** Pruning what a new sample outlives and outweighs, and what left the window, loses nothing that matters. */
  lemma RecordKeepsCover(s: Series, interval: nat, now: int, v: real, history: seq<Sample>, gone: int)
    requires interval > 0 && Cover(s.list, history, gone) && gone <= now - interval
    requires forall h <- history :: h.time <= now
    ensures Cover(Record(s, interval, now, v).list, history + [Sample(now, v)], now - interval)
  {
    var n, newest := Scan(s.list, now - interval, v), Sample(now, v);
    var list := s.list[n..] + [newest];
    assert list == Record(s, interval, now, v).list;
    forall k | k in s.list[n..] ensures k in history && k.time <= now { assert k in s.list; }
    SortedSlice(s.list, n);
    SortedAppend(s.list[n..], newest);
    forall h | h in history + [newest] && h.time > now - interval ensures Covered(list, h) {
      if h in history { NewestCovers(s.list, n, now, v, now - interval, h); } else {
        assert CoveredBy(h, list[|list| - 1]);
      }
    }
  }

  /** In a sorted list exactly the stale samples come first. */
  lemma {:induction false} StaleFacts(list: seq<Sample>, cutoff: int, i: nat)
    requires Sorted(list) && i < |list|
    ensures list[i].time < cutoff <==> i < Stale(list, cutoff)
  {
    var last := |list| - 1;
    assert Time(list, i) == list[i].time && Time(list, last) == list[last].time;
    if list[last].time >= cutoff && i < last {
      SortedSlice(list, last);
      StaleFacts(list[..last], cutoff, i);
    }
  }

  lemma SortedSlice(list: seq<Sample>, n: nat)
    requires Sorted(list) && n <= |list|
    ensures Sorted(list[n..]) && Sorted(list[..n])
  {
    forall i: nat, j: nat | i < j < n ensures Time(list[..n], i) <= Time(list[..n], j) {
      assert Time(list, i) <= Time(list, j);
    }
    forall i: nat, j: nat | i < j < |list| - n ensures Time(list[n..], i) <= Time(list[n..], j) {
      assert Time(list, n + i) <= Time(list, n + j);
    }
  }

  lemma SortedAppend(list: seq<Sample>, k: Sample)
    requires Sorted(list) && forall h <- list :: h.time <= k.time
    ensures Sorted(list + [k])
  {
    forall i: nat, j: nat | i < j < |list| + 1 ensures Time(list + [k], i) <= Time(list + [k], j) {
      if j < |list| { assert Time(list, i) <= Time(list, j); } else { assert list[i] in list; }
    }
  }

  lemma DropKeepsCover(list: seq<Sample>, history: seq<Sample>, gone: int, n: nat, more: int)
    requires Cover(list, history, gone) && gone <= more && n <= |list|
    requires forall i :: 0 <= i < n ==> list[i].time <= more
    ensures Cover(list[n..], history, more)
  {
    var kept := list[n..];
    assert forall i :: 0 <= i < |kept| ==> kept[i] == list[i + n];
    SortedSlice(list, n);
    forall k | k in kept ensures k in history { assert k in list; }
    forall h | h in history && h.time > more ensures Covered(kept, h) {
      assert Covered(list, h);
      var i :| 0 <= i < |list| && CoveredBy(h, list[i]);
      assert i >= n && CoveredBy(h, kept[i - n]);
    }
  }

  lemma ReadKeepsCover(s: Series, interval: nat, now: int, history: seq<Sample>, gone: int)
    requires interval > 0 && Cover(s.list, history, gone)
    ensures Cover(Read(s, interval, now).list, history, if gone < now - interval then now - interval - 1 else gone)
  {
    var n, more := Stale(s.list, now - interval), if gone < now - interval then now - interval - 1 else gone;
    forall i | 0 <= i < n ensures s.list[i].time <= more { StaleFacts(s.list, now - interval, i); }
    DropKeepsCover(s.list, history, gone, n, more);
  }

  lemma {:induction false} RunCovers(start: int, interval: nat, events: seq<Event>, now: int) returns (gone: int)
    requires interval > 0 && InOrder(events) && forall e <- events :: e.now <= now
    ensures Cover(After(start, interval, events).list, History(events), gone)
    ensures gone <= now - interval && (Later(events, now) ==> gone < now - interval)
    ensures forall h <- History(events) :: h.time <= now
  {
    if events == [] {
      gone := now - interval - 1;
    } else {
      var rest, e := events[..|events| - 1], events[|events| - 1];
      assert forall i :: 0 <= i < |rest| ==> events[i] == rest[i] && rest[i].now <= e.now;
      assert e in events;
      var before := RunCovers(start, interval, rest, e.now);
      var s, history := After(start, interval, rest), History(rest);
      match e
      case RecordEvent(t, v) =>
        RecordKeepsCover(s, interval, t, v, history, before);
        gone := t - interval;
      case ReadEvent(t) =>
        ReadKeepsCover(s, interval, t, history, before);
        gone := if before < t - interval then t - interval - 1 else before;
        assert now == t && Later(events, now) ==> Later(rest, t);
    }
  }

  /** After any run, at any time after the last record, reading gives the maximum over every sample of the closed
      window, although most samples were thrown away. */
  lemma ReadsWindowMax(start: int, interval: nat, events: seq<Event>, now: int)
    requires interval > 0 && InOrder(events) && Later(events, now)
    ensures Answer(After(start, interval, events), interval, now) == MaxFrom(History(events), now - interval)
  {
    var gone := RunCovers(start, interval, events, now);
    SameMax(After(start, interval, events).list, History(events), gone, now - interval);
  }

  /** A record throws away everything that is an interval old or older. */
  lemma RecordDrops(s: Series, interval: nat, now: int, v: real)
    requires interval > 0 && Sorted(s.list)
    ensures forall k <- Record(s, interval, now, v).list :: k.time > now - interval
  {
    var n := Scan(s.list, now - interval, v);
    forall k | k in s.list[n..] ensures k.time > now - interval {
      var i :| 0 <= i < |s.list| - n && s.list[n..][i] == k;
      if i > 0 { assert Time(s.list, n) <= Time(s.list, n + i); }
    }
  }

  lemma {:induction false} RecordDropsOld(start: int, interval: nat, events: seq<Event>, now: int, v: real)
    requires interval > 0 && InOrder(events) && RecordEvent(now, v) in events && forall e <- events :: e.now <= now
    ensures forall k <- After(start, interval, events).list :: k.time > now - interval
  {
    var rest, e := events[..|events| - 1], events[|events| - 1];
    LastEvent(events, now, v);
    if e.RecordEvent? {
      assert Sorted(After(start, interval, rest).list) by { var gone := RunCovers(start, interval, rest, now); }
      RecordDrops(After(start, interval, rest), interval, now, e.value);
    } else {
      RecordDropsOld(start, interval, rest, now, v);
      ReadKeepsNew(After(start, interval, rest), interval, e.now, now - interval);
    }
  }

  lemma ReadKeepsNew(s: Series, interval: nat, now: int, lo: int)
    requires forall k <- s.list :: k.time > lo
    ensures forall k <- Read(s, interval, now).list :: k.time > lo
  {
    forall k | k in Read(s, interval, now).list ensures k.time > lo { assert k in s.list; }
  }

  /** After the last record nothing is earlier than it. */
  lemma LastEvent(events: seq<Event>, now: int, v: real)
    requires InOrder(events) && RecordEvent(now, v) in events && forall e <- events :: e.now <= now
    ensures var rest, e := events[..|events| - 1], events[|events| - 1];
            && e.now == now && InOrder(rest) && (forall d <- rest :: d.now <= now)
            && (e.ReadEvent? ==> RecordEvent(now, v) in rest)
  {
    NotBefore(events, RecordEvent(now, v));
    assert events[|events| - 1] in events && forall d <- events[..|events| - 1] :: d in events;
  }

  lemma NotBefore(events: seq<Event>, e: Event)
    requires InOrder(events) && e in events
    ensures events[|events| - 1].now >= e.now
  {}

  lemma ListOpenMax(start: int, interval: nat, events: seq<Event>, now: int, v: real)
    requires interval > 0 && InOrder(events) && RecordEvent(now, v) in events && forall e <- events :: e.now <= now
    ensures MaxFrom(After(start, interval, events).list, now - interval) == MaxFrom(History(events), now - interval + 1)
  {
    var list, lo := After(start, interval, events).list, now - interval;
    assert MaxFrom(list, lo + 1) == MaxFrom(History(events), lo + 1) by {
      var gone := RunCovers(start, interval, events, now);
      SameMax(list, History(events), gone, lo + 1);
    }
    assert MaxFrom(list, lo) == MaxFrom(list, lo + 1) by {
      RecordDropsOld(start, interval, events, now, v);
      NothingAt(list, lo);
    }
  }

  /** A read in the very millisecond of a record answers for the open window instead, so it is the closed-window
      maximum exactly when nothing that is one interval old exceeds everything younger. */
  lemma ReadsOpenWindowMax(start: int, interval: nat, events: seq<Event>, now: int, v: real)
    requires interval > 0 && InOrder(events) && RecordEvent(now, v) in events && forall e <- events :: e.now <= now
    ensures var answer, lo := Answer(After(start, interval, events), interval, now), now - interval;
            && answer == MaxFrom(History(events), lo + 1)
            && (answer == MaxFrom(History(events), lo) <==>
                NothingLargerAt(History(events), lo))
  {
    OpenAnswer(start, interval, events, now, v);
    OneMillisecond(History(events), now - interval);
  }

  lemma OpenAnswer(start: int, interval: nat, events: seq<Event>, now: int, v: real)
    requires interval > 0 && InOrder(events) && RecordEvent(now, v) in events && forall e <- events :: e.now <= now
    ensures Answer(After(start, interval, events), interval, now) == MaxFrom(History(events), now - interval + 1)
  {
    ListOpenMax(start, interval, events, now, v);
  }

  lemma {:induction false} NothingAt(samples: seq<Sample>, lo: int)
    requires forall k <- samples :: k.time > lo
    ensures MaxFrom(samples, lo) == MaxFrom(samples, lo + 1)
  {
    if samples != [] {
      assert samples[|samples| - 1] in samples && forall k <- samples[..|samples| - 1] :: k in samples;
      NothingAt(samples[..|samples| - 1], lo);
    }
  }

  /** No sample of the millisecond lo exceeds everything younger. */
  ghost predicate NothingLargerAt(samples: seq<Sample>, lo: int) {
    forall h <- samples :: h.time == lo && h.value > 0.0 ==> h.value <= MaxFrom(samples, lo + 1)
  }

  lemma OneMillisecond(samples: seq<Sample>, lo: int)
    ensures MaxFrom(samples, lo + 1) == MaxFrom(samples, lo) <==>
            NothingLargerAt(samples, lo)
  {
    MaxFromFacts(samples, lo);
    MaxFromFacts(samples, lo + 1);
  }

  lemma ReadsOpenWindowExample()
    ensures var events := [RecordEvent(0, 9.0), RecordEvent(10, 1.0)];
            && InOrder(events)
            && Answer(After(0, 10, events), 10, 10) == 1.0
            && MaxFrom(History(events), 0) == 9.0
  {
    var e1, e2 := RecordEvent(0, 9.0), RecordEvent(10, 1.0);
    var events := [e1, e2];
    assert events[..1] == [e1] && [e1][..0] == [];
    assert After(0, 10, [e1]) == Series([Sample(0, 9.0)], 9.0, 0);
    assert Scan([Sample(0, 9.0)], 0, 1.0) == 1;
    assert After(0, 10, events) == Series([Sample(10, 1.0)], 1.0, 10);
    assert [Sample(10, 1.0)][..0] == [];
    assert History([e1]) == [Sample(0, 9.0)];
    assert History(events) == [Sample(0, 9.0), Sample(10, 1.0)];
    assert [Sample(0, 9.0), Sample(10, 1.0)][..1] == [Sample(0, 9.0)] && [Sample(0, 9.0)][..0] == [];
    assert MaxFrom([Sample(0, 9.0)], 0) == 9.0;
  }

  /** A record reports a new peak exactly when no sample inside the open window exceeds it. */
  lemma PeakIffLargest(start: int, interval: nat, events: seq<Event>, now: int, v: real)
    requires interval > 0 && InOrder(events) && forall e <- events :: e.now <= now
    ensures IsPeak(After(start, interval, events), interval, now, v) <==>
            forall h <- History(events) :: h.time > now - interval ==> h.value <= v
  {
    var list, history, cutoff := After(start, interval, events).list, History(events), now - interval;
    var gone := RunCovers(start, interval, events, now);
    var n := Scan(list, cutoff, v);
    if n == |list| {
      forall h | h in history && h.time > cutoff ensures h.value <= v {
        assert Covered(list, h);
        var i :| 0 <= i < |list| && CoveredBy(h, list[i]);
        assert !Beats(list[i], cutoff, v);
      }
    } else {
      assert list[n] in list;
    }
  }

  /** Without an interval the peak is the maximum since the start, and a record reports it exactly when it rises. */
  lemma {:induction false} ForeverIsMax(start: int, events: seq<Event>, lo: int)
    requires forall e <- events :: e.now >= lo
    ensures Answer(After(start, 0, events), 0, lo) == MaxFrom(History(events), lo)
  {
    if events != [] {
      var rest, e := events[..|events| - 1], events[|events| - 1];
      assert e in events && forall d <- rest :: d in events;
      ForeverIsMax(start, rest, lo);
      if e.RecordEvent? { assert (History(rest) + [Sample(e.now, e.value)])[..|History(rest)|] == History(rest); }
    }
  }

  lemma {:induction false} ForeverPeak(start: int, events: seq<Event>)
    ensures var peak := After(start, 0, events).peak;
            && peak >= 0.0
            && (forall h <- History(events) :: h.value <= peak)
            && (peak == 0.0 || exists h <- History(events) :: h.value == peak)
  {
    if events != [] {
      var rest, e := events[..|events| - 1], events[|events| - 1];
      ForeverPeak(start, rest);
      if e.RecordEvent? {
        var newest := Sample(e.now, e.value);
        assert newest in History(rest) + [newest];
        if h :| h in History(rest) && h.value == After(start, 0, rest).peak { assert h in History(rest) + [newest]; }
      }
    }
  }

  /** A record raises the peak, to its own value and time, and says so, exactly when it is above 0 and every earlier
      sample, or, with an interval, when no sample of the open window exceeds it. */
  lemma RaisesThePeak(start: int, interval: nat, events: seq<Event>, now: int, v: real)
    requires InOrder(events) && forall e <- events :: e.now <= now
    ensures var s, s' := After(start, interval, events), After(start, interval, events + [RecordEvent(now, v)]);
            var raised := if interval == 0 then v > 0.0 && forall h <- History(events) :: h.value < v
                          else forall h <- History(events) :: h.time > now - interval ==> h.value <= v;
            && (IsPeak(s, interval, now, v) <==> raised)
            && (raised ==> s'.peak == v && s'.peakTime == now)
            && (!raised ==> s'.peak == s.peak && s'.peakTime == s.peakTime)
  {
    var e := RecordEvent(now, v);
    assert (events + [e])[..|events|] == events;
    if interval == 0 { ForeverPeak(start, events); } else { PeakIffLargest(start, interval, events, now, v); }
  }

  lemma ReadDrops(s: Series, interval: nat, now: int, i: nat)
    requires interval > 0 && Sorted(s.list) && i < |s.list|
    ensures DropsBefore(s.list, Read(s, interval, now).list, now - interval, i)
  {
    var n := Stale(s.list, now - interval);
    StaleFacts(s.list, now - interval, i);
    assert |s.list| - |s.list[n..]| == n;
  }

  /** The second list is the end of the first, and sample i has gone exactly if it is from before lo. */
  ghost predicate DropsBefore(list: seq<Sample>, list': seq<Sample>, lo: int, i: nat)
    requires i < |list|
  {
    && |list'| <= |list| && list' == list[|list| - |list'|..]
    && (list[i].time < lo <==> i < |list| - |list'|)
  }

  /** Nothing is kept for longer than it matters: a read drops exactly the samples from before the closed window. */
  lemma ReadForgets(start: int, interval: nat, events: seq<Event>, now: int, i: nat)
    requires interval > 0 && InOrder(events) && forall e <- events :: e.now <= now
    requires i < |After(start, interval, events).list|
    ensures DropsBefore(After(start, interval, events).list, After(start, interval, events + [ReadEvent(now)]).list,
                        now - interval, i)
  {
    assert Sorted(After(start, interval, events).list) by { var gone := RunCovers(start, interval, events, now); }
    ReadDrops(After(start, interval, events), interval, now, i);
    LastStep(start, interval, events, ReadEvent(now));
  }

  lemma LastStep(start: int, interval: nat, events: seq<Event>, e: Event)
    ensures After(start, interval, events + [e]) == Step(After(start, interval, events), interval, e)
  {
    assert (events + [e])[..|events|] == events;
  }
}
