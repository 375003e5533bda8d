/** The up/down timeline engine of the Gatus status cog.

    A stream of point observations ("service X was reported up/down at time t")
    is folded into a history of completed legs. An observation marks the
    BOUNDARY of a status, so every leg carries the negation of the status that
    the observation closing it reported. Timestamps and durations are whole
    seconds; the wall clock is the explicit parameter `now`.
 */
module Timelines {

  /** One scraped alert: which service (`labber`), when, and whether it reported up. */
  datatype GatusData = GatusData(labber: string, date: int, status: bool)

  /** A completed leg: `status` held for `length` seconds, ending at `endData`. */
  datatype GatusEvent = GatusEvent(length: int, endData: int, status: bool)

  /** The legs recorded so far for the service called `name`. */
  datatype GatusTimeline = GatusTimeline(name: string, history: seq<GatusEvent>)

  function Last<T>(s: seq<T>): T
    requires |s| > 0
  {
    s[|s| - 1]
  }

  function Init<T>(s: seq<T>): seq<T>
    requires |s| > 0
  {
    s[..|s| - 1]
  }

  /** Consecutive legs have opposite statuses. */
  predicate Alternating(h: seq<GatusEvent>) {
    forall i :: 0 < i < |h| ==> h[i].status != h[i - 1].status
  }

  /** The first leg is the zero-length seed, and every later leg lasts exactly
      from the end of its predecessor to its own end. */
  predicate Chained(h: seq<GatusEvent>) {
    && (|h| > 0 ==> h[0].length == 0)
    && forall i :: 0 < i < |h| ==> h[i].length == h[i].endData - h[i - 1].endData
  }

  /** Observation dates never go backwards. */
  predicate Sorted(entries: seq<GatusData>) {
    forall i, j :: 0 <= i < j < |entries| ==> entries[i].date <= entries[j].date
  }

  /** `add_entry`: the first observation seeds a zero-length leg; a later one
      closes a leg only when it repeats the status stored on the last leg
      (that is, when it differs from the previous observation); otherwise the
      history is left as it is. */
  function AddEntry(h: seq<GatusEvent>, entry: GatusData): (r: seq<GatusEvent>)
    ensures |h| <= |r| <= |h| + 1
    ensures r[..|h|] == h
    ensures |r| == |h| + 1 <==> (h == [] || Last(h).status == entry.status)
    ensures |r| == |h| + 1 ==> Last(r).endData == entry.date
    ensures |r| > 0 && Last(r).status == !entry.status
    ensures Alternating(h) ==> Alternating(r)
    ensures Chained(h) ==> Chained(r)
  {
    if h == [] then
      [GatusEvent(0, entry.date, !entry.status)]
    else if Last(h).status == entry.status then
      h + [GatusEvent(entry.date - Last(h).endData, entry.date, !entry.status)]
    else
      h
  }

  /** The history a fresh timeline holds after `add_entry` of each entry in turn. */
  function Fold(entries: seq<GatusData>): (h: seq<GatusEvent>)
    ensures |h| <= |entries|
    ensures |entries| > 0 ==> |h| > 0 && Last(h).status == !Last(entries).status
    ensures Alternating(h) && Chained(h)
  {
    if entries == [] then [] else AddEntry(Fold(Init(entries)), Last(entries))
  }

  /** Number of places where an observation reports a different status from
      the observation just before it. */
  function Flips(entries: seq<GatusData>): nat {
    if |entries| <= 1 then 0
    else Flips(Init(entries)) + (if Last(entries).status != entries[|entries| - 2].status then 1 else 0)
  }

  /** The still-open leg from the last recorded boundary up to `now`. */
  function End(t: GatusTimeline, now: int): GatusEvent
    requires |t.history| > 0
  {
    GatusEvent(now - Last(t.history).endData, now, !Last(t.history).status)
  }

  /** Number of legs whose status is `event`. */
  function Count(h: seq<GatusEvent>, event: bool): (r: nat)
    ensures r <= |h|
    ensures |h| > 0 && h[0].status == event ==> r >= 1
  {
    if h == [] then 0 else Count(Init(h), event) + (if Last(h).status == event then 1 else 0)
  }

  /** Summed length of the legs whose status is `event`. */
  function SumWhere(h: seq<GatusEvent>, event: bool): (r: int)
    ensures (forall i :: 0 <= i < |h| ==> h[i].length >= 0) ==> r >= 0
  {
    if h == [] then 0 else SumWhere(Init(h), event) + (if Last(h).status == event then Last(h).length else 0)
  }

  /** Summed length of all legs. */
  function SumLengths(h: seq<GatusEvent>): int {
    if h == [] then 0 else SumLengths(Init(h)) + Last(h).length
  }

  /** `total_events`: legs with status `event`, not counting the seed leg,
      plus the open leg when it has that status. */
  function TotalEvents(t: GatusTimeline, now: int, event: bool): (r: int)
    requires |t.history| > 0
    ensures 0 <= r <= |t.history|
  {
    var offset := (if t.history[0].status == event then -1 else 0)
                  + (if End(t, now).status == event then 1 else 0);
    Count(t.history, event) + offset
  }

  /** `total_time`: time spent in status `event`, the open leg included. */
  function TotalTime(t: GatusTimeline, now: int, event: bool): (r: int)
    requires |t.history| > 0
    ensures ((forall i :: 0 <= i < |t.history| ==> t.history[i].length >= 0)
             && now >= Last(t.history).endData) ==> r >= 0
  {
    var offset := if End(t, now).status == event then End(t, now).length else 0;
    SumWhere(t.history, event) + offset
  }

  /** `total_ups`. Ups and downs together number the recorded legs; in an
      alternating history the count is fixed by the seed's status. */
  function TotalUps(t: GatusTimeline, now: int): (r: int)
    requires |t.history| > 0
    ensures 0 <= r <= |t.history|
    ensures r + TotalDowns(t, now) == |t.history|
    ensures Alternating(t.history) ==>
              r == if t.history[0].status then |t.history| / 2 else (|t.history| + 1) / 2
  {
    CountSplit(t.history);
    if Alternating(t.history) then
      AlternatingCount(t.history);
      AlternatingParity(t.history, |t.history| - 1);
      TotalEvents(t, now, true)
    else
      TotalEvents(t, now, true)
  }

  /** `total_downs`; in an alternating history the count is fixed by the
      seed's status. */
  function TotalDowns(t: GatusTimeline, now: int): (r: int)
    requires |t.history| > 0
    ensures 0 <= r <= |t.history|
    ensures Alternating(t.history) ==>
              r == if t.history[0].status then (|t.history| + 1) / 2 else |t.history| / 2
  {
    if Alternating(t.history) then
      AlternatingCount(t.history);
      AlternatingParity(t.history, |t.history| - 1);
      TotalEvents(t, now, false)
    else
      TotalEvents(t, now, false)
  }

  /** `total_time_up`. For a chained history, up time and down time together
      span from the first leg end to `now`. */
  function TotalTimeUp(t: GatusTimeline, now: int): (r: int)
    requires |t.history| > 0
    ensures Chained(t.history) ==> r + TotalTimeDown(t, now) == now - t.history[0].endData
    ensures ((forall i :: 0 <= i < |t.history| ==> t.history[i].length >= 0)
             && now >= Last(t.history).endData) ==> r >= 0
  {
    SumSplit(t.history);
    if Chained(t.history) then
      Telescope(t.history);
      TotalTime(t, now, true)
    else
      TotalTime(t, now, true)
  }

  /** `total_time_down`. */
  function TotalTimeDown(t: GatusTimeline, now: int): (r: int)
    requires |t.history| > 0
    ensures ((forall i :: 0 <= i < |t.history| ==> t.history[i].length >= 0)
             && now >= Last(t.history).endData) ==> r >= 0
  {
    TotalTime(t, now, false)
  }

  // ---------------------------------------------------------------------------
  // Properties of the fold
  // ---------------------------------------------------------------------------

  /** Adding an entry to an empty timeline yields exactly the seed leg. */
  lemma SeedLeg(entry: GatusData)
    ensures AddEntry([], entry) == [GatusEvent(0, entry.date, !entry.status)]
  {
  }

  /** On a non-empty history an entry appends exactly one leg, running from the
      last leg's end to the entry's date, iff it repeats the last leg's status;
      otherwise nothing changes. */
  lemma AppendOrIgnore(h: seq<GatusEvent>, entry: GatusData)
    requires |h| > 0
    ensures Last(h).status == entry.status ==>
              AddEntry(h, entry) == h + [GatusEvent(entry.date - Last(h).endData, entry.date, !entry.status)]
    ensures Last(h).status != entry.status ==> AddEntry(h, entry) == h
  {
  }

  /** The first leg of a folded history is the seed built from the first entry. */
  lemma {:induction false} FoldSeed(entries: seq<GatusData>)
    requires |entries| > 0
    ensures Fold(entries)[0] == GatusEvent(0, entries[0].date, !entries[0].status)
  {
    if |entries| > 1 {
      var h := Fold(Init(entries));
      FoldSeed(Init(entries));
      assert Fold(entries)[..|h|] == h;
      assert Fold(entries)[0] == Fold(entries)[..|h|][0];
    }
  }

  /** A folded history has one leg per genuine flip plus the seed. */
  lemma {:induction false} FoldCountsFlips(entries: seq<GatusData>)
    requires |entries| > 0
    ensures |Fold(entries)| == 1 + Flips(entries)
  {
    if |entries| > 1 {
      var prefix := Init(entries);
      FoldCountsFlips(prefix);
      assert Last(prefix) == entries[|entries| - 2];
    }
  }

  /** With dates in order, every leg has a non-negative length and the last
      leg never ends after the last observation. */
  lemma {:induction false} FoldSorted(entries: seq<GatusData>)
    requires |entries| > 0 && Sorted(entries)
    ensures forall i :: 0 <= i < |Fold(entries)| ==> Fold(entries)[i].length >= 0
    ensures entries[0].date <= Last(Fold(entries)).endData <= Last(entries).date
  {
    var h := Fold(entries);
    if |entries| == 1 {
      assert h == [GatusEvent(0, entries[0].date, !entries[0].status)];
    } else {
      var prefix := Init(entries);
      var g := Fold(prefix);
      assert Sorted(prefix);
      FoldSorted(prefix);
      assert prefix[0] == entries[0];
      assert Last(prefix).date <= Last(entries).date;
      assert h[..|g|] == g;
      forall i | 0 <= i < |h|
        ensures h[i].length >= 0
      {
        if i < |g| {
          assert h[i] == h[..|g|][i];
        }
      }
    }
  }

  /** With dates in order, leg ends never go backwards. */
  lemma FoldEndsOrdered(entries: seq<GatusData>)
    requires |entries| > 0 && Sorted(entries)
    ensures forall i :: 0 < i < |Fold(entries)| ==> Fold(entries)[i - 1].endData <= Fold(entries)[i].endData
  {
    FoldSorted(entries);
  }

  /** The current status (that of the open leg) is the status most recently reported. */
  lemma CurrentStatusIsLastReport(name: string, entries: seq<GatusData>, now: int)
    requires |entries| > 0
    ensures End(GatusTimeline(name, Fold(entries)), now).status == Last(entries).status
  {
  }

  // ---------------------------------------------------------------------------
  // Counting
  // ---------------------------------------------------------------------------

  /** Every leg is either up or down. */
  lemma {:induction false} CountSplit(h: seq<GatusEvent>)
    ensures Count(h, true) + Count(h, false) == |h|
  {
    if h != [] {
      CountSplit(Init(h));
    }
  }

  /** Ups and downs together number exactly the recorded legs: the seed leg
      removed by one offset is put back by the open leg. */
  lemma EventsPartition(t: GatusTimeline, now: int)
    requires |t.history| > 0
    ensures TotalUps(t, now) + TotalDowns(t, now) == |t.history|
    ensures TotalUps(t, now) >= 0 && TotalDowns(t, now) >= 0
  {
    CountSplit(t.history);
  }

  /** In an alternating history the status at position i is fixed by the
      parity of i. */
  lemma {:induction false} AlternatingParity(h: seq<GatusEvent>, i: int)
    requires Alternating(h) && 0 <= i < |h|
    ensures h[i].status == (h[0].status == (i % 2 == 0))
  {
    if i > 0 {
      AlternatingParity(h, i - 1);
    }
  }

  /** An alternating history starting with status s holds ceil(n/2) legs of
      status s and floor(n/2) of the other. */
  lemma {:induction false} AlternatingCount(h: seq<GatusEvent>)
    requires Alternating(h) && |h| > 0
    ensures Count(h, h[0].status) == (|h| + 1) / 2
    ensures Count(h, !h[0].status) == |h| / 2
  {
    if |h| > 1 {
      var g := Init(h);
      assert Alternating(g);
      AlternatingCount(g);
      AlternatingParity(h, |h| - 1);
    }
  }

  /** For an alternating history of n legs the status of the seed leg is
      counted floor(n/2) times and the other status ceil(n/2) times; so ups and
      downs differ by at most one. */
  lemma TotalsOfAlternating(t: GatusTimeline, now: int)
    requires |t.history| > 0 && Alternating(t.history)
    ensures TotalEvents(t, now, t.history[0].status) == |t.history| / 2
    ensures TotalEvents(t, now, !t.history[0].status) == (|t.history| + 1) / 2
    ensures -1 <= TotalUps(t, now) - TotalDowns(t, now) <= 1
  {
    AlternatingCount(t.history);
    AlternatingParity(t.history, |t.history| - 1);
  }

  /** For a folded timeline the ups and downs add up to one more than the
      number of genuine flips. */
  lemma EventsCountFlips(name: string, entries: seq<GatusData>, now: int)
    requires |entries| > 0
    ensures TotalUps(GatusTimeline(name, Fold(entries)), now)
            + TotalDowns(GatusTimeline(name, Fold(entries)), now) == 1 + Flips(entries)
  {
    EventsPartition(GatusTimeline(name, Fold(entries)), now);
    FoldCountsFlips(entries);
  }

  // ---------------------------------------------------------------------------
  // Durations
  // ---------------------------------------------------------------------------

  /** Every leg's length goes either to up time or to down time. */
  lemma {:induction false} SumSplit(h: seq<GatusEvent>)
    ensures SumWhere(h, true) + SumWhere(h, false) == SumLengths(h)
  {
    if h != [] {
      SumSplit(Init(h));
    }
  }

  /** The lengths of a chained history telescope to the span between the first
      and the last leg end. */
  lemma {:induction false} Telescope(h: seq<GatusEvent>)
    requires Chained(h) && |h| > 0
    ensures SumLengths(h) == Last(h).endData - h[0].endData
  {
    if |h| > 1 {
      var g := Init(h);
      assert Chained(g);
      Telescope(g);
    }
  }

  /** Up time plus down time is the time from the first leg end to `now`. */
  lemma TimePartition(t: GatusTimeline, now: int)
    requires |t.history| > 0 && Chained(t.history)
    ensures TotalTimeUp(t, now) + TotalTimeDown(t, now) == now - t.history[0].endData
  {
    SumSplit(t.history);
    Telescope(t.history);
  }

  /** For a folded timeline, up time plus down time is the time elapsed since
      the first observation; with ordered dates and `now` not before the last
      one, both are non-negative. */
  lemma ElapsedSinceFirstObservation(name: string, entries: seq<GatusData>, now: int)
    requires |entries| > 0
    ensures TotalTimeUp(GatusTimeline(name, Fold(entries)), now)
            + TotalTimeDown(GatusTimeline(name, Fold(entries)), now) == now - entries[0].date
    ensures Sorted(entries) && now >= Last(entries).date ==>
              TotalTimeUp(GatusTimeline(name, Fold(entries)), now) >= 0
              && TotalTimeDown(GatusTimeline(name, Fold(entries)), now) >= 0
  {
    var t := GatusTimeline(name, Fold(entries));
    FoldSeed(entries);
    TimePartition(t, now);
    if Sorted(entries) && now >= Last(entries).date {
      FoldSorted(entries);
    }
  }

  /** A single "up" report: no down events, one up event (the open leg), and
      all time since the report counted as up. */
  lemma SingleUpReport(name: string, t0: int, now: int)
    ensures var t := GatusTimeline(name, Fold([GatusData(name, t0, true)]));
            && |t.history| == 1
            && TotalUps(t, now) == 1 && TotalDowns(t, now) == 0
            && TotalTimeUp(t, now) == now - t0 && TotalTimeDown(t, now) == 0
  {
    var h := Fold([GatusData(name, t0, true)]);
    assert Init([GatusData(name, t0, true)]) == [];
    assert h == [GatusEvent(0, t0, false)];
    assert Init(h) == [];
    assert SumWhere(h, true) == 0 && SumWhere(h, false) == 0;
    assert Count(h, true) == 0 && Count(h, false) == 1;
  }

  /** An up report followed by a down report: one completed up leg between
      them and the service currently down. */
  lemma UpThenDown(name: string, t0: int, t1: int, now: int)
    ensures var t := GatusTimeline(name, Fold([GatusData(name, t0, true), GatusData(name, t1, false)]));
            && t.history == [GatusEvent(0, t0, false), GatusEvent(t1 - t0, t1, true)]
            && TotalUps(t, now) == 1 && TotalDowns(t, now) == 1
            && TotalTimeUp(t, now) == t1 - t0 && TotalTimeDown(t, now) == now - t1
  {
    var es := [GatusData(name, t0, true), GatusData(name, t1, false)];
    assert Init(es) == [es[0]];
    assert Init([es[0]]) == [];
    var seed := GatusEvent(0, t0, false);
    assert Fold([es[0]]) == [seed];
    var h := Fold(es);
    assert h == AddEntry([seed], es[1]);
    assert h == [seed, GatusEvent(t1 - t0, t1, true)];
    assert Init(h) == [seed];
    assert Init([seed]) == [];
    assert SumWhere([seed], true) == 0 && SumWhere([seed], false) == 0;
    assert SumWhere(h, true) == t1 - t0 && SumWhere(h, false) == 0;
    assert Count(h, true) == 1 && Count(h, false) == 1;
  }
}
