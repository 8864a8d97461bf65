/**
 `check_section_demand` of src/app.cpp: a client that works in automatic mode while AgOpenGPS demands
 none of its sections is warned about once it has gone on for ten seconds.
 */
module DemandMonitor {
  import opened Bits
  import opened DeviceDescriptor

  const WORKING_WITHOUT_DEMAND_WARNING_MS := 10000

  /** A running stretch of checks that found the client working without demand. */
  datatype Episode = Episode(sinceMs: nat, warned: bool)

  datatype Notice = Warning | FollowsAgain

  /** What a check finds about a client that is present. */
  datatype Sample = Sample(unasked: bool, nowMs: nat)

  /** The unsigned 32-bit difference of two timestamps. */
  function Elapsed(nowMs: nat, sinceMs: nat): nat {
    (nowMs - sinceMs) % TWO_POW_32
  }

  /** On timestamps less than 2^32 milliseconds apart it is the time that has passed. */
  lemma ElapsedIsDifference(now: nat, since: nat)
    requires since <= now < since + 0x1_0000_0000
    ensures Elapsed(now % 0x1_0000_0000, since % 0x1_0000_0000) == now - since
  {
  }

  /** The episode kept for a client and what is said about it, after one more check of it. */
  function CheckClient(tracked: Option<Episode>, s: Sample): (Option<Episode>, seq<Notice>) {
    if !s.unasked then
      (None, if tracked.Some? && tracked.value.warned then [FollowsAgain] else [])
    else
      var episode := if tracked.Some? then tracked.value else Episode(s.nowMs, false);
      if !episode.warned && Elapsed(s.nowMs, episode.sinceMs) >= WORKING_WITHOUT_DEMAND_WARNING_MS
      then (Some(episode.(warned := true)), [Warning])
      else (Some(episode), [])
  }

  /** The episode kept after all checks of a client, and everything said about it. */
  function CheckRun(samples: seq<Sample>): (Option<Episode>, seq<Notice>) {
    if samples == [] then (None, [])
    else
      var (tracked, said) := CheckRun(samples[..|samples| - 1]);
      var (after, more) := CheckClient(tracked, samples[|samples| - 1]);
      (after, said + more)
  }

  // ---------------------------------------------------------------------------------------------
  // What the monitor says, in terms of the checks alone
  // ---------------------------------------------------------------------------------------------

  /** The first check of the unbroken unasked stretch that the last check belongs to. */
  function EpisodeStart(samples: seq<Sample>): (start: nat)
    requires samples != [] && samples[|samples| - 1].unasked
    ensures start < |samples|
    ensures forall i :: start <= i < |samples| ==> samples[i].unasked
    ensures start == 0 || !samples[start - 1].unasked
  {
    var last := |samples| - 1;
    if last == 0 || !samples[last - 1].unasked then last else EpisodeStart(samples[..last])
  }

  /** Check `m` comes ten seconds or more after the start of the episode. */
  ghost predicate Overdue(samples: seq<Sample>, start: nat, m: nat)
    requires start < |samples| && m < |samples|
  {
    Elapsed(samples[m].nowMs, samples[start].nowMs) >= WORKING_WITHOUT_DEMAND_WARNING_MS
  }

  /** The last check is the first of its episode to come ten seconds or more after the start. */
  ghost predicate FirstOverdue(samples: seq<Sample>) {
    && samples != [] && samples[|samples| - 1].unasked
    && var start := EpisodeStart(samples); var last := |samples| - 1;
       Overdue(samples, start, last) && forall m :: start <= m < last ==> !Overdue(samples, start, m)
  }

  /** The last check was the first asked one after an episode in which some check was overdue. */
  ghost predicate EndsOverdue(samples: seq<Sample>) {
    && |samples| >= 2 && !samples[|samples| - 1].unasked && samples[|samples| - 2].unasked
    && var before := samples[..|samples| - 1]; var start := EpisodeStart(before);
       exists m :: start <= m < |before| && Overdue(before, start, m)
  }

  /** What is kept is the start of the current episode and whether any check of it was overdue. */
  lemma {:induction false} TrackedIsEpisode(samples: seq<Sample>)
    ensures var tracked := CheckRun(samples).0;
            if samples == [] || !samples[|samples| - 1].unasked then tracked == None
            else
              var start := EpisodeStart(samples);
              && tracked.Some? && tracked.value.sinceMs == samples[start].nowMs
              && (tracked.value.warned <==> exists m :: start <= m < |samples| && Overdue(samples, start, m))
  {
    if samples != [] && samples[|samples| - 1].unasked {
      var before, last := samples[..|samples| - 1], |samples| - 1;
      TrackedIsEpisode(before);
      var start := EpisodeStart(samples);
      assert samples[last] == samples[|samples| - 1];
      if last != 0 && samples[last - 1].unasked {
        assert before[|before| - 1] == samples[last - 1] && EpisodeStart(before) == start;
        assert forall m :: start <= m < last ==> Overdue(samples, start, m) == Overdue(before, start, m);
        assert (exists m :: start <= m < |samples| && Overdue(samples, start, m)) <==>
               (exists m :: start <= m < last && Overdue(before, start, m)) || Overdue(samples, start, last);
      } else {
        assert start == last && !Overdue(samples, start, last);
      }
    }
  }

  /**
   Exactly when the monitor speaks: it warns at a check if and only if that is the first check of an
   unbroken unasked stretch to come ten seconds (modulo 2^32 milliseconds) or more after its start, and it
   says that the client follows again if and only if the check ends a stretch that was warned about.
   */
  lemma SaysExactly(samples: seq<Sample>)
    requires samples != []
    ensures CheckRun(samples).1 == CheckRun(samples[..|samples| - 1]).1 +
            if FirstOverdue(samples) then [Warning] else if EndsOverdue(samples) then [FollowsAgain] else []
  {
    hide Overdue, FirstOverdue, EndsOverdue;
    var before, last := samples[..|samples| - 1], |samples| - 1;
    if !samples[last].unasked {
      SaysWhenAsked(samples);
    } else if last != 0 && samples[last - 1].unasked {
      SaysLaterInEpisode(samples);
    } else {
      SaysAtStart(samples);
    }
  }

  lemma SaysWhenAsked(samples: seq<Sample>)
    requires samples != [] && !samples[|samples| - 1].unasked
    ensures !FirstOverdue(samples)
    ensures CheckClient(CheckRun(samples[..|samples| - 1]).0, samples[|samples| - 1]).1 ==
            if EndsOverdue(samples) then [FollowsAgain] else []
  {
    hide Overdue;
    var before := samples[..|samples| - 1];
    TrackedIsEpisode(before);
    assert before != [] ==> before[|before| - 1] == samples[|samples| - 2];
  }

  lemma SaysAtStart(samples: seq<Sample>)
    requires samples != [] && samples[|samples| - 1].unasked && (|samples| == 1 || !samples[|samples| - 2].unasked)
    ensures !FirstOverdue(samples) && !EndsOverdue(samples)
    ensures CheckClient(CheckRun(samples[..|samples| - 1]).0, samples[|samples| - 1]).1 == []
  {
    var before := samples[..|samples| - 1];
    TrackedIsEpisode(before);
    assert before != [] ==> before[|before| - 1] == samples[|samples| - 2];
    assert EpisodeStart(samples) == |samples| - 1;
  }

  lemma SaysLaterInEpisode(samples: seq<Sample>)
    requires |samples| >= 2 && samples[|samples| - 1].unasked && samples[|samples| - 2].unasked
    ensures !EndsOverdue(samples)
    ensures CheckClient(CheckRun(samples[..|samples| - 1]).0, samples[|samples| - 1]).1 ==
            if FirstOverdue(samples) then [Warning] else []
  {
    var before, last := samples[..|samples| - 1], |samples| - 1;
    TrackedIsEpisode(before);
    var start := EpisodeStart(samples);
    assert before[|before| - 1] == samples[last - 1] && EpisodeStart(before) == start;
    assert forall m :: start <= m < last ==> Overdue(samples, start, m) == Overdue(before, start, m);
  }

  /**
   Warnings and follow-ups alternate, starting with a warning; a warning is open exactly while a warned
   episode is kept.
   */
  lemma {:induction false} NoticesAlternate(samples: seq<Sample>)
    ensures var (tracked, said) := CheckRun(samples);
            && (forall i :: 0 <= i < |said| ==> said[i] == if i % 2 == 0 then Warning else FollowsAgain)
            && (|said| % 2 == 1 <==> tracked.Some? && tracked.value.warned)
  {
    if samples != [] {
      NoticesAlternate(samples[..|samples| - 1]);
    }
  }

  // ---------------------------------------------------------------------------------------------
  // The same in true time
  // ---------------------------------------------------------------------------------------------

  /** The checks took place at these times, in this order, and their timestamps are the low 32 bits of them. */
  ghost predicate TakenAt(samples: seq<Sample>, times: seq<nat>) {
    && |times| == |samples|
    && (forall i :: 0 <= i < |samples| ==> samples[i].nowMs == times[i] % 0x1_0000_0000)
    && (forall i, j :: 0 <= i <= j < |times| ==> times[i] <= times[j])
  }

  /** Checks `first` to `last` all found the client unasked, and the one before them, if any, did not. */
  ghost predicate IsStretch(samples: seq<Sample>, first: int, last: int) {
    && 0 <= first <= last < |samples|
    && (forall k :: first <= k <= last ==> samples[k].unasked)
    && (first == 0 || !samples[first - 1].unasked)
  }

  /** No stretch lasts 2^32 milliseconds, which is more than 49 days. */
  ghost predicate ShortStretches(samples: seq<Sample>, times: seq<nat>) {
    |times| == |samples| &&
    forall i, j :: IsStretch(samples, i, j) ==> times[j] < times[i] + 0x1_0000_0000
  }

  /** The last check is the first of its stretch ten seconds or more after the start. */
  ghost predicate WarnsNow(samples: seq<Sample>, times: seq<nat>)
    requires |times| == |samples|
  {
    var last := |samples| - 1;
    exists first :: IsStretch(samples, first, last) && times[last] >= times[first] + 10000
                    && forall m :: first <= m < last ==> times[m] < times[first] + 10000
  }

  /** The last check found the client asked for, after a stretch of ten seconds or more. */
  ghost predicate FollowsNow(samples: seq<Sample>, times: seq<nat>)
    requires |times| == |samples|
  {
    && |samples| >= 2 && !samples[|samples| - 1].unasked
    && var end := |samples| - 2;
       exists first :: IsStretch(samples, first, end) && times[end] >= times[first] + 10000
  }

  lemma OverdueInTime(samples: seq<Sample>, times: seq<nat>, first: nat, m: nat)
    requires TakenAt(samples, times) && first <= m < |samples| && times[m] < times[first] + 0x1_0000_0000
    ensures Overdue(samples, first, m) <==> times[m] >= times[first] + 10000
  {
    ElapsedIsDifference(times[m], times[first]);
  }

  lemma WarnsInTime(samples: seq<Sample>, times: seq<nat>)
    requires samples != [] && TakenAt(samples, times) && ShortStretches(samples, times)
    ensures FirstOverdue(samples) <==> WarnsNow(samples, times)
  {
    hide Overdue;
    var last := |samples| - 1;
    if samples[last].unasked {
      var start := EpisodeStart(samples);
      assert IsStretch(samples, start, last);
      forall m | start <= m <= last ensures Overdue(samples, start, m) <==> times[m] >= times[start] + 10000 {
        OverdueInTime(samples, times, start, m);
      }
      forall first | IsStretch(samples, first, last) ensures first == start {
      }
    }
  }

  lemma SomeOverdue(samples: seq<Sample>, times: seq<nat>, start: nat)
    requires TakenAt(samples, times) && start < |samples|
    requires times[|samples| - 1] < times[start] + 0x1_0000_0000
    ensures (exists m :: start <= m < |samples| && Overdue(samples, start, m)) <==>
            times[|samples| - 1] >= times[start] + 10000
  {
    hide Overdue;
    forall m | start <= m < |samples| ensures Overdue(samples, start, m) <==> times[m] >= times[start] + 10000 {
      assert times[start] <= times[m] <= times[|samples| - 1];
      OverdueInTime(samples, times, start, m);
    }
    if times[|samples| - 1] >= times[start] + 10000 {
      assert Overdue(samples, start, |samples| - 1);
    }
  }

  lemma FollowsInTime(samples: seq<Sample>, times: seq<nat>)
    requires samples != [] && TakenAt(samples, times) && ShortStretches(samples, times)
    ensures EndsOverdue(samples) <==> FollowsNow(samples, times)
  {
    hide Overdue, TakenAt;
    var last := |samples| - 1;
    if last >= 1 && !samples[last].unasked && samples[last - 1].unasked {
      var before, end := samples[..last], last - 1;
      assert before[|before| - 1] == samples[end];
      var start := EpisodeStart(before);
      assert IsStretch(samples, start, end);
      assert |times| == |samples| && TakenAt(before, times[..last]) by { TakenBefore(samples, times); }
      SomeOverdue(before, times[..last], start);
      forall first | IsStretch(samples, first, end) ensures first == start {
      }
    }
  }

  lemma TakenBefore(samples: seq<Sample>, times: seq<nat>)
    requires samples != [] && TakenAt(samples, times)
    ensures |times| == |samples| && TakenAt(samples[..|samples| - 1], times[..|samples| - 1])
  {
  }

  /**
   What the monitor says, in true time and for stretches of less than 2^32 milliseconds: it warns at the
   first check of an unbroken unasked stretch ten seconds or more after the start of the stretch, and says
   that the client follows again at the first check after a stretch of ten seconds or more.
   */
  lemma SaysInTime(samples: seq<Sample>, times: seq<nat>)
    requires samples != [] && TakenAt(samples, times) && ShortStretches(samples, times)
    ensures CheckRun(samples).1 == CheckRun(samples[..|samples| - 1]).1 +
            if WarnsNow(samples, times) then [Warning] else if FollowsNow(samples, times) then [FollowsAgain] else []
  {
    hide FirstOverdue, EndsOverdue, WarnsNow, FollowsNow, CheckRun;
    SaysExactly(samples);
    WarnsInTime(samples, times);
    FollowsInTime(samples, times);
  }
}
